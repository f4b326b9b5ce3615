// JSON bodies on the control connection: JSON_write puts a four-byte length in front of the
// unformatted text, JSON_read takes both off again.
module JsonFrame {
  import opened Bytes
  import opened Json
  import opened TextFacts
  import opened JsonGrammar
  import opened NetworkOrder
  import opened Items
  import opened Trees
  import Parser = TreeParser
  import Printer = TreePrinter
  import PrintBuffer
  import R = RoundTrip

  const UINT32: nat := 0x1_0000_0000
  const INT_MAX: nat := 0x7FFF_FFFF

  // What JSON_write sends. The length is kept in 32 bits.
  function Written(v: Json): seq<byte> {
    var text := Text(v, false, 0);
    var hsize := |text| % UINT32;
    BigEndian(hsize, 4) + text[..hsize]
  }

  datatype Received = Body(v: Json, rest: seq<byte>) | Refused

  // What JSON_read makes of the bytes that have arrived; maxSize 0 is no limit. Nread returns an
  // int, so that a body of 2^31 bytes or more counts as a failure. The parser sees the body up to
  // its first NUL.
  function Read(stream: seq<byte>, maxSize: nat): Received {
    if |stream| < 4 then Refused else
      var size := FromBigEndian(stream[..4]);
      if size == 0 || (maxSize != 0 && size > maxSize) || size > INT_MAX || |stream| < 4 + size then Refused else
        match ParseText(UpToNul(stream[4..4 + size]) + [0], false)
        case Ok(v, _) => Body(v, stream[4 + size..])
        case Err(_) => Refused
  }

  // The peer gets the value that was written, and only its bytes are consumed, exactly when the
  // text is within the reader's limit and that of an int.
  lemma ReadWritten(v: Json, rest: seq<byte>, maxSize: nat)
    requires ExactNumbers(v) && Nesting(v) <= NESTING_LIMIT
    requires |Text(v, false, 0)| < UINT32
    ensures Read(Written(v) + rest, maxSize) == Body(v, rest) <==>
            (maxSize == 0 || |Text(v, false, 0)| <= maxSize) && |Text(v, false, 0)| <= INT_MAX
  {
    hide Text, ParseText, Nesting, ExactNumbers, FromBigEndian, BigEndian, Power256;
    var text := Text(v, false, 0);
    var head := BigEndian(|text|, 4);
    RoundTrips(|text|, 4);
    Limits();
    var stream := Written(v) + rest;
    assert stream == head + (text + rest);
    assert stream[..4] == head;
    assert stream[4..4 + |text|] == text;
    assert stream[4 + |text|..] == rest;
    R.FirstByte(v, false, 0);
    TextNulFree(v, false, 0);
    UpToNulOfCString(text);
    R.RoundTrips(v, false, false);
  }

  // A body over either limit is refused.
  lemma TooLong(v: Json, rest: seq<byte>, maxSize: nat)
    requires 0 < maxSize < |Text(v, false, 0)| < UINT32 || INT_MAX < |Text(v, false, 0)| < UINT32
    ensures Read(Written(v) + rest, maxSize) == Refused
  {
    hide Text, ParseText, FromBigEndian, BigEndian, Power256;
    var text := Text(v, false, 0);
    RoundTrips(|text|, 4);
    Limits();
    assert (Written(v) + rest)[..4] == BigEndian(|text|, 4);
  }

  // The first four bytes spell the length of the text behind them.
  lemma Layout(v: Json)
    requires |Text(v, false, 0)| < UINT32
    ensures |Written(v)| == 4 + |Text(v, false, 0)| && Written(v)[4..] == Text(v, false, 0)
    ensures forall i :: 0 <= i < 4 ==> Written(v)[i] == |Text(v, false, 0)| / Power256(3 - i) % 256
  {
    hide Text, Power256, BigEndian;
    var text := Text(v, false, 0);
    var head := BigEndian(|text|, 4);
    assert Written(v) == head + text;
    hide Written;
    forall i | 0 <= i < 4 ensures Written(v)[i] == |text| / Power256(3 - i) % 256 {
      PlaceValues(|text|, 4, i);
      assert Written(v)[i] == head[i];
    }
  }

  // Of a message that breaks off nothing is read.
  lemma Truncated(v: Json, k: nat, maxSize: nat)
    requires |Text(v, false, 0)| < UINT32 && k < |Written(v)|
    ensures Read(Written(v)[..k], maxSize) == Refused
  {
    hide Text, Power256, FromBigEndian, BigEndian, ParseText;
    var text := Text(v, false, 0);
    RoundTrips(|text|, 4);
    Limits();
    if k >= 4 {
      assert Written(v)[..k][..4] == BigEndian(|text|, 4);
    }
  }

  // One direction of the control connection: the bytes sent and not yet received.
  class Channel {
    var stream: seq<byte>

    // JSON_write, when the writes take all bytes. Nwrite returns how many as an int.
    method JsonWrite(json: Item, hasRealloc: bool) returns (r: int)
      requires Tree(json)
      modifies this
      ensures var length := |Text(json.model, false, 0)|;
              && r == (if length + 2 <= PrintBuffer.SIZE_MAX && length % UINT32 <= INT_MAX then 0 else -1)
              && stream == (if length + 2 <= PrintBuffer.SIZE_MAX then old(stream) + Written(json.model) else old(stream))
    {
      hide Tree, Text;
      var ok, str := Printer.Print(json, false, hasRealloc);
      if !ok {
        return -1;
      }
      var hsize := (str.Length - 1) % UINT32;
      stream := stream + (BigEndian(hsize, 4) + str[..hsize]);
      assert str[..][..hsize] == Text(json.model, false, 0)[..hsize];
      return if hsize > INT_MAX then -1 else 0;
    }

    // JSON_read: a tree that stands for the value, or null.
    method JsonRead(maxSize: nat) returns (json: Item?)
      modifies this
      ensures match Read(old(stream), maxSize)
              case Body(v, rest) => json != null && Tree(json) && json.model == v && fresh(json.nodes) && stream == rest
              case Refused => json == null
      // the length is gone, and so is a body that was read
      ensures var before := old(stream);
              json == null ==>
                if |before| < 4 then stream == before
                else
                  var size := FromBigEndian(before[..4]);
                  stream == before[if 0 < size <= |before| - 4 && (maxSize == 0 || size <= maxSize) then 4 + size else 4..]
    {
      hide Tree, ParseText, FromBigEndian;
      json := null;
      ghost var before := stream;
      if |stream| < 4 {
        return;
      }
      var hsize := FromBigEndian(stream[..4]);
      stream := stream[4..];
      if hsize > 0 && (maxSize == 0 || hsize <= maxSize) {
        if |stream| >= hsize {
          var str := stream[..hsize];
          stream := stream[hsize..];
          assert str == before[4..4 + hsize] && stream == before[4 + hsize..];
          if hsize <= INT_MAX {
            var end;
            json, end := Parser.ParseWithLengthOpts(UpToNul(str) + [0], false);
          }
        }
      }
    }
  }
}
