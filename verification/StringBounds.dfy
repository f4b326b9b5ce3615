// parse_string sizes its output in a first pass over the literal and fills it in a second. The
// two passes can disagree on where escapes start: a \u escape with bad digits swallows six
// characters whatever they are. Here is why the output fits all the same.
module StringBounds {
  import opened Bytes
  import opened StringLiteral

  // How many characters and escapes the first pass sees from i on.
  function Units(c: seq<byte>, i: nat, end: nat): (n: nat)
    requires end < |c|
    decreases end + 1 - i
  {
    if i >= end then 0 else 1 + Units(c, i + (if c[i] == BACKSLASH then 2 else 1), end)
  }

  // The second pass stands at i. Either the first pass also stopped at i, or (mid) i is the
  // second half of one of its escapes.
  ghost predicate InStep(c: seq<byte>, i: nat, end: nat, mid: bool) {
    i >= end || Closing(c, if mid then i + 1 else i) == Some(end)
  }

  // How much the second pass may still write.
  function Allowance(c: seq<byte>, i: nat, end: nat, mid: bool): nat
    requires end < |c|
  {
    if i >= end then 0 else if mid then 1 + Units(c, i + 1, end) else Units(c, i, end)
  }

  // The first pass, from a, either stops at b or jumps over it.
  lemma {:induction false} Reach(c: seq<byte>, a: nat, b: nat, end: nat) returns (mid: bool)
    requires a <= b <= end < |c| && Closing(c, a) == Some(end)
    ensures mid ==> b < end
    ensures Closing(c, if mid then b + 1 else b) == Some(end)
    ensures Units(c, a, end) >= (if mid then (b + 2 - a) / 2 + Units(c, b + 1, end) else (b + 1 - a) / 2 + Units(c, b, end))
    decreases b - a
  {
    if a == b {
      mid := false;
    } else if c[a] != BACKSLASH {
      mid := Reach(c, a + 1, b, end);
    } else if a + 2 <= b {
      mid := Reach(c, a + 2, b, end);
    } else {
      mid := true;
    }
  }

  // One step of the second pass writes no more than its share of the allowance.
  lemma TokenFits(c: seq<byte>, i: nat, end: nat, mid: bool) returns (mid': bool)
    requires i < end < |c| && InStep(c, i, end, mid) && Token(c, i, end).1 > 0
    ensures InStep(c, i + Token(c, i, end).1, end, mid')
    ensures |Token(c, i, end).0| + Allowance(c, i + Token(c, i, end).1, end, mid') <= Allowance(c, i, end, mid)
  {
    var t := Token(c, i, end);
    if c[i] != BACKSLASH {
      mid' := false;
    } else if c[i + 1] == LETTER_U {
      // past \\u both passes agree on i + 2; the hexadecimal digits follow
      mid' := Reach(c, i + 2, i + t.1, end);
    } else if i + 1 == end {
      mid' := false;
    } else {
      mid' := mid && c[i + 1] == BACKSLASH;
    }
  }

  // Whatever the literal, the bytes of the second pass are at most the units of the first.
  lemma {:induction false} DecodeFits(c: seq<byte>, i: nat, end: nat, mid: bool)
    requires end < |c| && InStep(c, i, end, mid) && Decode(c, i, end).Decoded?
    ensures |Decode(c, i, end).bytes| <= Allowance(c, i, end, mid)
    decreases end + 1 - i
  {
    if i < end {
      var mid' := TokenFits(c, i, end, mid);
      DecodeFits(c, i + Token(c, i, end).1, end, mid');
    }
  }

  // The second pass never looks behind the closing quote: with the input cut off there, each step
  // and the whole decoding are the same.
  lemma {:induction false} StaysInside(c: seq<byte>, i: nat, end: nat)
    requires end < |c|
    ensures Decode(c[..end + 1], i, end) == Decode(c, i, end)
    decreases end + 1 - i
  {
    hide Token;
    if i < end {
      TokenInside(c, i, end);
      if Token(c, i, end).1 > 0 {
        StaysInside(c, i + Token(c, i, end).1, end);
      }
    }
  }

  lemma TokenInside(c: seq<byte>, i: nat, end: nat)
    requires i < end < |c|
    ensures Token(c[..end + 1], i, end) == Token(c, i, end)
  {
    var d := c[..end + 1];
    if i + 6 <= end {
      assert d[i + 2..i + 6] == c[i + 2..i + 6];
    }
    if i + 12 <= end {
      assert d[i + 8..i + 12] == c[i + 8..i + 12];
    }
  }

  // The two passes really can fall out of step: here the second one reads the closing quote as
  // part of an escape and stops one past it.
  lemma PassesFallOutOfStep()
    ensures var c := [QUOTE, BACKSLASH, LETTER_U, 'g' as int, 'g' as int, 'g' as int, BACKSLASH, BACKSLASH, QUOTE];
            Closing(c, 1) == Some(8) && Decode(c, 1, 8) == Decoded([0, QUOTE])
            && Token(c, 7, 8).1 == 2
  {
    var c := [QUOTE, BACKSLASH, LETTER_U, 'g' as int, 'g' as int, 'g' as int, BACKSLASH, BACKSLASH, QUOTE];
    assert Closing(c, 8) == Some(8);
    assert Closing(c, 6) == Some(8);
    assert Closing(c, 4) == Closing(c, 5) == Closing(c, 6);
    assert Closing(c, 1) == Closing(c, 3) == Closing(c, 4);
    assert Decode(c, 9, 8) == Decoded([]);
    assert Decode(c, 7, 8) == Decoded([QUOTE]);
    assert Hex4(c[3..7]) == 0;
    assert Token(c, 1, 8) == ([0], 6);
  }
}
