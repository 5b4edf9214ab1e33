/** The decoder object of multi_msg_decoder.hpp: a header buffer, a message under construction, and a callback. */
module MultiBufferDecoder {
  import opened Octets
  import opened LittleEndian
  import opened FrameDecoder

  class Decoder {
    /** `tmp_buffer_`: its announced length, which is zero while no message is under construction, and its bytes. */
    var tmpLength: nat
    var tmpBuffer: array<Octet>
    var tmpFilled: nat
    const headerData: array<Octet>
    var headerLength: nat
    /** The messages passed to the callback so far. */
    var delivered: seq<Message>

    ghost predicate Valid()
      reads this
    {
      && headerData.Length == 4
      && tmpBuffer != headerData
      && if tmpLength == 0 then
           headerLength < 4
         else
           headerLength == 0 && tmpFilled < tmpLength == tmpBuffer.Length < TWO_32
    }

    ghost function Current(): (st: State)
      requires Valid()
      reads this, headerData, tmpBuffer
      ensures st.Valid()
    {
      if tmpLength == 0 then Header(headerData[..headerLength]) else Body(tmpLength, tmpBuffer[..tmpFilled])
    }

    constructor ()
      ensures Valid() && Current() == Header([]) && delivered == []
      ensures fresh(headerData) && fresh(tmpBuffer)
    {
      headerData := new Octet[4];
      tmpBuffer := new Octet[0];
      tmpLength, tmpFilled, headerLength, delivered := 0, 0, 0, [];
    }

    /** Completes or starts a header with the front of `buffer`; returns the announced length. */
    method TakeHeader(buffer: seq<Octet>) returns (len: nat, used: nat)
      requires Valid() && tmpLength == 0 && 4 <= |buffer|
      modifies this`headerLength, headerData
      ensures Valid() && headerLength == 0
      ensures used == 4 - old(headerLength)
      ensures len == ToNat(old(headerData[..headerLength]) + buffer[..used])
    {
      if headerLength != 0 {
        used := 4 - headerLength;
        ghost var held := headerData[..headerLength];
        forall i | 0 <= i < used {
          headerData[headerLength + i] := buffer[i];
        }
        assert headerData[..] == held + buffer[..used];
        len := ToNat(headerData[..]);
        headerLength := 0;
      } else {
        used := 4;
        len := ToNat(buffer[..4]);
        assert headerData[..headerLength] + buffer[..4] == buffer[..4];
      }
    }

    method Handle(buffer: seq<Octet>)
      requires Valid()
      modifies this, headerData, tmpBuffer
      ensures Valid()
      ensures tmpBuffer == old(tmpBuffer) || fresh(tmpBuffer)
      ensures Current() == Handled(old(Current()), buffer).state
      ensures delivered == old(delivered) + Handled(old(Current()), buffer).messages
      decreases |buffer|, 1
    {
      if tmpLength == 0 {
        if |buffer| < 4 {
          forall i | 0 <= i < |buffer| {
            headerData[i] := buffer[i];
          }
          headerLength := |buffer|;
          assert headerData[..headerLength] == buffer;
          return;
        }
        var len, used := TakeHeader(buffer);
        HandleFrame(len, buffer[used..]);
      } else {
        HandleBody(buffer);
      }
    }

    /** From the point where the header is known: deliver, keep, or deliver and go on. */
    method HandleFrame(len: nat, buffer: seq<Octet>)
      requires Valid() && tmpLength == 0 && headerLength == 0 && len < TWO_32
      modifies this, headerData, tmpBuffer
      ensures Valid()
      ensures tmpBuffer == old(tmpBuffer) || fresh(tmpBuffer)
      ensures Current() == NewFrame(len, buffer).state
      ensures delivered == old(delivered) + NewFrame(len, buffer).messages
      decreases |buffer|, 2
    {
      var data := new Octet[len];
      if len == |buffer| {
        forall i | 0 <= i < len {
          data[i] := buffer[i];
        }
        assert data[..] == buffer;
        delivered := delivered + [data[..]];
      } else if len > |buffer| {
        forall i | 0 <= i < |buffer| {
          data[i] := buffer[i];
        }
        tmpFilled := |buffer|;
        tmpLength, tmpBuffer := len, data;
        assert tmpBuffer[..tmpFilled] == buffer;
      } else {
        forall i | 0 <= i < len {
          data[i] := buffer[i];
        }
        assert data[..] == buffer[..len];
        delivered := delivered + [data[..]];
        Handle(buffer[len..]);
      }
    }

    /** Copies what the message under construction still lacks, and delivers the message once it is whole. */
    method FillBody(buffer: seq<Octet>) returns (copied: nat)
      requires Valid() && tmpLength != 0
      modifies this, tmpBuffer
      ensures Valid() && tmpBuffer == old(tmpBuffer)
      ensures var over := old(tmpLength - tmpFilled);
              if |buffer| < over then
                && copied == |buffer|
                && delivered == old(delivered)
                && Current() == Body(old(tmpLength), old(tmpBuffer[..tmpFilled]) + buffer)
              else
                && copied == over
                && delivered == old(delivered) + [old(tmpBuffer[..tmpFilled]) + buffer[..over]]
                && Current() == Header([])
    {
      var over := tmpLength - tmpFilled;
      copied := if |buffer| < over then |buffer| else over;
      ghost var part := tmpBuffer[..tmpFilled];
      forall i | 0 <= i < copied {
        tmpBuffer[tmpFilled + i] := buffer[i];
      }
      tmpFilled := tmpFilled + copied;
      assert tmpBuffer[..tmpFilled] == part + buffer[..copied];
      if tmpFilled == tmpLength {
        assert tmpBuffer[..] == tmpBuffer[..tmpFilled];
        delivered := delivered + [tmpBuffer[..]];
        tmpLength, tmpFilled := 0, 0;
      }
    }

    /** Continues the message under construction. */
    method HandleBody(buffer: seq<Octet>)
      requires Valid() && tmpLength != 0
      modifies this, headerData, tmpBuffer
      ensures Valid()
      ensures tmpBuffer == old(tmpBuffer) || fresh(tmpBuffer)
      ensures Current() == Handled(old(Current()), buffer).state
      ensures delivered == old(delivered) + Handled(old(Current()), buffer).messages
      decreases |buffer|, 0
    {
      var copied := FillBody(buffer);
      if |buffer| - copied > 0 {
        Handle(buffer[copied..]);
      }
    }
  }
}
