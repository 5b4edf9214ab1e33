/**
 The language the request parser accepts, given declaratively as syntax trees and their printing: the Full-Request
 of section 5 of RFC 1945, narrowed the way RequestParser.cpp narrows it. Exactly one SP follows the colon, the
 URI may be empty, and a continuation line adds its text to the value without a SP.
*/
module HttpGrammar {
  import opened HttpParser

  /** A continuation line: a run of blanks and the text after it. */
  datatype Fold = Fold(blanks: Text, text: Text)

  datatype Field = Field(name: Text, value: Text, folds: seq<Fold>)

  datatype Tree = Tree(method_: Text, uri: Text, major: Text, minor: Text, fields: seq<Field>)

  const CRLF: Text := [CR, LF]
  const SEPARATOR: Text := [COLON, SP]
  const PROTOCOL: Text := ['H' as int, 'T' as int, 'T' as int, 'P' as int, SLASH]

  /** What the names above and the character classes stand for, after section 2.2 of RFC 1945. */
  lemma Alphabet(c: Char)
    ensures PROTOCOL == ['H' as int, 'T' as int, 'T' as int, 'P' as int, '/' as int]
    ensures CRLF == ['\r' as int, '\n' as int] && SEPARATOR == [':' as int, ' ' as int]
    ensures SP == ' ' as int && DOT == '.' as int && ZERO == '0' as int
    ensures IsToken(c) <==>
              || 'a' as int <= c <= 'z' as int || 'A' as int <= c <= 'Z' as int || '0' as int <= c <= '9' as int
              || c == '!' as int || c == '#' as int || c == '$' as int || c == '%' as int || c == '&' as int
              || c == '\'' as int || c == '*' as int || c == '+' as int || c == '-' as int || c == '.' as int
              || c == '^' as int || c == '_' as int || c == '`' as int || c == '|' as int || c == '~' as int
    ensures !IsCtl(c) <==> c < 0 || 32 <= c <= 126
    ensures IsBlank(c) <==> c == ' ' as int || c == '\t' as int
    ensures IsDigit(c) <==> 48 <= c < 58
  {}

  predicate Token(s: Text) {
    s != [] && forall c <- s :: IsToken(c)
  }

  predicate Printable(s: Text) {
    forall c <- s :: !IsCtl(c)
  }

  predicate Digits(s: Text) {
    s != [] && forall c <- s :: IsDigit(c)
  }

  predicate Blanks(s: Text) {
    forall c <- s :: IsBlank(c)
  }

  predicate FoldOk(f: Fold) {
    f.blanks != [] && Blanks(f.blanks) && Printable(f.text) && (f.text != [] ==> f.text[0] != SP)
  }

  predicate FieldOk(f: Field) {
    Token(f.name) && Printable(f.value) && forall k <- f.folds :: FoldOk(k)
  }

  predicate TreeOk(t: Tree) {
    && Token(t.method_)
    && Printable(t.uri) && SP !in t.uri
    && Digits(t.major) && Digits(t.minor)
    && forall f <- t.fields :: FieldOk(f)
  }

  // ---------------------------------------------------------------------------------------------------------
  // Printing

  function PrintFolds(folds: seq<Fold>): Text {
    if folds == [] then [] else folds[0].blanks + folds[0].text + CRLF + PrintFolds(folds[1..])
  }

  function PrintField(f: Field): Text {
    f.name + SEPARATOR + f.value + CRLF + PrintFolds(f.folds)
  }

  function PrintFields(fields: seq<Field>): Text {
    if fields == [] then [] else PrintField(fields[0]) + PrintFields(fields[1..])
  }

  function PrintVersion(t: Tree): Text {
    PROTOCOL + t.major + [DOT] + t.minor + CRLF
  }

  function PrintLine(t: Tree): Text {
    t.method_ + [SP] + t.uri + [SP] + PrintVersion(t)
  }

  function Print(t: Tree): Text {
    PrintLine(t) + (PrintFields(t.fields) + CRLF)
  }

  // ---------------------------------------------------------------------------------------------------------
  // Meaning

  function Decimal(digits: Text): int {
    if digits == [] then 0
    else Decimal(digits[..|digits| - 1]) * 10 + digits[|digits| - 1] - ZERO
  }

  function FoldTexts(folds: seq<Fold>): Text {
    if folds == [] then [] else folds[0].text + FoldTexts(folds[1..])
  }

  /** A field's value is its first line's text followed by each continuation without its leading blanks. */
  function HeaderOf(f: Field): Header {
    Header(f.name, f.value + FoldTexts(f.folds))
  }

  function HeadersOf(fields: seq<Field>): seq<Header> {
    if fields == [] then [] else [HeaderOf(fields[0])] + HeadersOf(fields[1..])
  }

  function Meaning(t: Tree): Request {
    Request(t.method_, t.uri, Decimal(t.major), Decimal(t.minor), HeadersOf(t.fields))
  }
}
