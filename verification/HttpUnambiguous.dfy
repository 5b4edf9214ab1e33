/** The grammar is unambiguous: no two well-formed trees print alike. */
module HttpUnambiguous {
  import opened HttpParser
  import opened HttpGrammar

  /** A text up to the first occurrence of a character it does not contain is determined by the whole. */
  lemma CutUnique(a: Text, b: Text, a': Text, b': Text, x: Char)
    requires x !in a && x !in a'
    requires a + [x] + b == a' + [x] + b'
    ensures a == a' && b == b'
  {
    var s, s' := a + [x] + b, a' + [x] + b';
    assert s[|a|] == x && s'[|a'|] == x;
    assert forall i :: 0 <= i < |a| ==> s[i] == a[i] != x;
    assert forall i :: 0 <= i < |a'| ==> s'[i] == a'[i] != x;
    assert a == s[..|a|] && b == s[|a| + 1..];
    assert a' == s'[..|a'|] && b' == s'[|a'| + 1..];
  }

  /** A run of blanks before something that does not start with a blank is determined by the whole. */
  lemma SpanUnique(a: Text, b: Text, a': Text, b': Text)
    requires Blanks(a) && Blanks(a') && b != [] && b' != [] && !IsBlank(b[0]) && !IsBlank(b'[0])
    requires a + b == a' + b'
    ensures a == a' && b == b'
  {
    var s, s' := a + b, a' + b';
    assert s[|a|] == b[0] && s'[|a'|] == b'[0];
    assert forall i :: 0 <= i < |a| ==> s[i] == a[i] && IsBlank(a[i]);
    assert forall i :: 0 <= i < |a'| ==> s'[i] == a'[i] && IsBlank(a'[i]);
    assert a == s[..|a|] && b == s[|a|..];
    assert a' == s'[..|a'|] && b' == s'[|a'|..];
  }

  lemma NotInPrintable(s: Text)
    requires Printable(s)
    ensures CR !in s && HT !in s
  {}

  lemma NotInToken(s: Text)
    requires forall c <- s :: IsToken(c)
    ensures SP !in s && COLON !in s && CR !in s && HT !in s
  {}

  lemma NotInDigits(s: Text)
    requires forall c <- s :: IsDigit(c)
    ensures DOT !in s && CR !in s
  {}

  /** The first character of a header block says which kind of line comes first. */
  function Block(folds: seq<Fold>, fields: seq<Field>): Text {
    PrintFolds(folds) + PrintFields(fields) + CRLF
  }

  lemma BlockHead(folds: seq<Fold>, fields: seq<Field>)
    requires (forall f <- folds :: FoldOk(f)) && (forall f <- fields :: FieldOk(f))
    ensures Block(folds, fields) != []
    ensures folds != [] <==> IsBlank(Block(folds, fields)[0])
    ensures folds == [] && fields == [] <==> Block(folds, fields)[0] == CR
  {
    if folds != [] {
      var f := folds[0];
      assert f in folds && f.blanks[0] in f.blanks;
      assert Block(folds, fields)[0] == f.blanks[0];
    } else if fields != [] {
      var f := fields[0];
      assert f in fields && f.name[0] in f.name;
      assert Block(folds, fields)[0] == f.name[0];
    }
  }

  lemma FoldSplit(folds: seq<Fold>, fields: seq<Field>)
    requires folds != []
    ensures var f, rest := folds[0], Block(folds[1..], fields);
            && Block(folds, fields) == f.blanks + (f.text + CRLF + rest)
            && f.text + CRLF + rest == f.text + [CR] + ([LF] + rest)
  {}

  lemma Associate(n: Text, v: Text, x: Text, y: Text)
    ensures n + SEPARATOR + v + CRLF + x + y + CRLF == n + [COLON] + ([SP] + (v + [CR] + ([LF] + (x + y + CRLF))))
  {
    var z := x + y + CRLF;
    assert v + CRLF + z == v + [CR] + ([LF] + z);
    assert n + SEPARATOR + v + CRLF + x + y + CRLF == n + SEPARATOR + (v + CRLF + z);
  }

  lemma FieldSplit(fields: seq<Field>)
    requires fields != []
    ensures var f, rest := fields[0], Block(fields[0].folds, fields[1..]);
            && Block([], fields) == f.name + [COLON] + ([SP] + (f.value + [CR] + ([LF] + rest)))
  {
    var f, rest := fields[0], Block(fields[0].folds, fields[1..]);
    assert [] + PrintFields(fields) == PrintFields(fields);
    var x, y := PrintFolds(f.folds), PrintFields(fields[1..]);
    assert Block([], fields) == PrintField(f) + y + CRLF;
    Associate(f.name, f.value, x, y);
  }

  lemma FoldUnique(f: Fold, rest: Text, f': Fold, rest': Text)
    requires FoldOk(f) && FoldOk(f')
    requires f.blanks + (f.text + [CR] + ([LF] + rest)) == f'.blanks + (f'.text + [CR] + ([LF] + rest'))
    ensures f == f' && rest == rest'
  {
    var u, u' := f.text + [CR] + ([LF] + rest), f'.text + [CR] + ([LF] + rest');
    NotInPrintable(f.text);
    NotInPrintable(f'.text);
    assert !IsBlank(u[0]) && !IsBlank(u'[0]);
    SpanUnique(f.blanks, u, f'.blanks, u');
    CutUnique(f.text, [LF] + rest, f'.text, [LF] + rest', CR);
    assert rest == ([LF] + rest)[1..] && rest' == ([LF] + rest')[1..];
  }

  lemma FieldUnique(n: Text, v: Text, rest: Text, n': Text, v': Text, rest': Text)
    requires Token(n) && Token(n') && Printable(v) && Printable(v')
    requires n + [COLON] + ([SP] + (v + [CR] + ([LF] + rest))) == n' + [COLON] + ([SP] + (v' + [CR] + ([LF] + rest')))
    ensures n == n' && v == v' && rest == rest'
  {
    NotInToken(n);
    NotInToken(n');
    NotInPrintable(v);
    NotInPrintable(v');
    var u, u' := v + [CR] + ([LF] + rest), v' + [CR] + ([LF] + rest');
    CutUnique(n, [SP] + u, n', [SP] + u', COLON);
    assert u == ([SP] + u)[1..] && u' == ([SP] + u')[1..];
    CutUnique(v, [LF] + rest, v', [LF] + rest', CR);
    assert rest == ([LF] + rest)[1..] && rest' == ([LF] + rest')[1..];
  }

  lemma {:induction false} BlockUnique(folds: seq<Fold>, fields: seq<Field>, folds': seq<Fold>, fields': seq<Field>)
    requires (forall f <- folds :: FoldOk(f)) && (forall f <- fields :: FieldOk(f))
    requires (forall f <- folds' :: FoldOk(f)) && (forall f <- fields' :: FieldOk(f))
    requires Block(folds, fields) == Block(folds', fields')
    ensures folds == folds' && fields == fields'
    decreases |Block(folds, fields)|
  {
    hide FoldOk, Block;
    BlockHead(folds, fields);
    BlockHead(folds', fields');
    if folds != [] {
      FoldSplit(folds, fields);
      FoldSplit(folds', fields');
      assert folds[0] in folds && folds'[0] in folds';
      FoldUnique(folds[0], Block(folds[1..], fields), folds'[0], Block(folds'[1..], fields'));
      BlockUnique(folds[1..], fields, folds'[1..], fields');
      assert folds == [folds[0]] + folds[1..] && folds' == [folds'[0]] + folds'[1..];
    } else if fields != [] {
      var f, f' := fields[0], fields'[0];
      FieldSplit(fields);
      FieldSplit(fields');
      assert f in fields && f' in fields';
      FieldUnique(f.name, f.value, Block(f.folds, fields[1..]), f'.name, f'.value, Block(f'.folds, fields'[1..]));
      BlockUnique(f.folds, fields[1..], f'.folds, fields'[1..]);
      assert fields == [f] + fields[1..] && fields' == [f'] + fields'[1..];
    }
  }

  lemma LineSplit(t: Tree)
    ensures Print(t) == t.method_ + [SP] + (t.uri + [SP] + (PROTOCOL + (t.major + [DOT]
                        + (t.minor + [CR] + ([LF] + Block([], t.fields))))))
  {}

  /** Two well-formed trees that print alike are the same tree. */
  lemma PrintIsInjective(t: Tree, t': Tree)
    requires TreeOk(t) && TreeOk(t') && Print(t) == Print(t')
    ensures t == t'
  {
    hide Print, Block;
    LineSplit(t);
    LineSplit(t');
    var d, d' := [LF] + Block([], t.fields), [LF] + Block([], t'.fields);
    var c, c' := t.minor + [CR] + d, t'.minor + [CR] + d';
    var b, b' := t.major + [DOT] + c, t'.major + [DOT] + c';
    var a, a' := t.uri + [SP] + (PROTOCOL + b), t'.uri + [SP] + (PROTOCOL + b');
    NotInToken(t.method_);
    NotInToken(t'.method_);
    CutUnique(t.method_, a, t'.method_, a', SP);
    CutUnique(t.uri, PROTOCOL + b, t'.uri, PROTOCOL + b', SP);
    assert b == (PROTOCOL + b)[5..] && b' == (PROTOCOL + b')[5..];
    NotInDigits(t.major);
    NotInDigits(t'.major);
    CutUnique(t.major, c, t'.major, c', DOT);
    NotInDigits(t.minor);
    NotInDigits(t'.minor);
    CutUnique(t.minor, d, t'.minor, d', CR);
    assert Block([], t.fields) == d[1..] && Block([], t'.fields) == d'[1..];
    BlockUnique([], t.fields, [], t'.fields);
  }
}
