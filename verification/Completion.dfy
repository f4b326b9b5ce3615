// When the parser looks behind its input, told by the input alone: its last byte is a comma, and
// with one more member and the missing brackets behind it, it is a whole value.
module Completion {
  import opened Bytes
  import opened Json
  import opened StringLiteral
  import opened StringBounds
  import opened NumberLiteral
  import opened JsonGrammar
  import opened InputEnd

  // ---------- more input behind ----------

  // Where c ends and x goes on, nothing runs together: no blanks, no number and no escape.
  ghost predicate Seam(c: seq<byte>, x: seq<byte>) {
    && x != [] && x[0] > 32 && !IsNumberChar(x[0])
    && (c != [] ==> c[|c| - 1] > 32 && c[|c| - 1] != BACKSLASH)
  }

  lemma AtSame(c: seq<byte>, x: seq<byte>, o: nat, t: seq<byte>)
    requires o + |t| <= |c|
    ensures At(c + x, o, t) <==> At(c, o, t)
  {
    assert (c + x)[o..o + |t|] == c[o..o + |t|];
  }

  lemma {:induction false} BlankEndSame(c: seq<byte>, x: seq<byte>, o: nat)
    requires Seam(c, x) && o <= |c|
    ensures BlankEnd(c + x, o) == BlankEnd(c, o)
    ensures o < |c| ==> BlankEnd(c, o) < |c|
    decreases |c| - o
  {
    if o < |c| {
      assert (c + x)[o] == c[o];
      BlankEndSame(c, x, o + 1);
    } else {
      assert (c + x)[o] == x[0];
    }
  }

  lemma SkipSame(c: seq<byte>, x: seq<byte>, o: nat)
    requires Seam(c, x) && o <= |c|
    ensures Skip(c + x, o) == Skip(c, o) <= |c|
    ensures o < |c| ==> Skip(c, o) < |c|
    ensures o == |c| ==> Skip(c, o) == |c|
  {
    hide BlankEnd;
    BlankEndSame(c, x, o);
  }

  lemma {:induction false} CountSame(c: seq<byte>, x: seq<byte>, o: nat, most: nat)
    requires Seam(c, x) && o <= |c|
    ensures NumberCharCount(c + x, o, most) == NumberCharCount(c, o, most)
    decreases most
  {
    if o < |c| {
      assert (c + x)[o] == c[o];
      if most > 0 {
        CountSame(c, x, o + 1, most - 1);
      }
    } else {
      assert (c + x)[o] == x[0];
    }
  }

  lemma NumberSame(c: seq<byte>, x: seq<byte>, o: nat)
    requires Seam(c, x) && o <= |c|
    ensures ParseNumber(c + x, o) == ParseNumber(c, o)
  {
    hide NumberCharCount, Strtod, ValueInt;
    CountSame(c, x, o, 63);
    var n := NumberCharCount(c, o, 63);
    assert (c + x)[o..o + n] == c[o..o + n];
  }

  lemma {:induction false} ClosingSame(c: seq<byte>, x: seq<byte>, i: nat)
    requires i <= |c|
    ensures Closing(c, i).Some? ==> Closing(c + x, i) == Closing(c, i)
    ensures Closing(c + x, i).Some? && Closing(c + x, i).value < |c| ==> Closing(c + x, i) == Closing(c, i)
    decreases |c| - i
  {
    if i < |c| {
      assert (c + x)[i] == c[i];
      if c[i] == BACKSLASH {
        if i + 1 < |c| {
          ClosingSame(c, x, i + 2);
        }
      } else if c[i] != QUOTE {
        ClosingSame(c, x, i + 1);
      }
    }
  }

  // A string that is closed within c stays the same.
  lemma StringSame(c: seq<byte>, x: seq<byte>, o: nat)
    requires o <= |c|
    ensures ParseString(c, o).Ok? ==> ParseString(c + x, o) == ParseString(c, o)
    ensures ParseString(c + x, o).Ok? && ParseString(c + x, o).next <= |c| ==> ParseString(c + x, o) == ParseString(c, o)
  {
    hide Decode, Closing;
    if o < |c| {
      assert (c + x)[o] == c[o];
      ClosingSame(c, x, o + 1);
      match Closing(c, o + 1)
      case Some(end) =>
        StaysInside(c, o + 1, end);
        StaysInside(c + x, o + 1, end);
        assert (c + x)[..end + 1] == c[..end + 1];
      case None =>
    }
  }

  // Whether a parse of c is the same with x behind it, as long as it does not go on into x.
  ghost predicate Same<T>(c: seq<byte>, r: Parsed<T>, all: Parsed<T>) {
    (r.Ok? ==> all == r) && (all.Ok? && all.next <= |c| ==> all == r)
  }

  lemma {:induction false} ValueSame(c: seq<byte>, x: seq<byte>, o: nat, depth: nat)
    requires Seam(c, x) && o <= |c|
    ensures Same(c, ParseValue(c, o, depth), ParseValue(c + x, o, depth))
    decreases Left(c, o), 0
  {
    hide ParseString, ParseNumber, ParseArray, ParseObject, At, Seam;
    if o < |c| {
      assert (c + x)[o] == c[o];
      LiteralsSame(c, x, o);
      StringSame(c, x, o);
      NumberSame(c, x, o);
      if Has(c, o, OPEN_BRACKET) {
        ArraySame(c, x, o, depth);
      }
      if Has(c, o, OPEN_BRACE) {
        ObjectSame(c, x, o, depth);
      }
    }
  }

  lemma LiteralsSame(c: seq<byte>, x: seq<byte>, o: nat)
    requires o < |c|
    ensures forall t :: t in {NULL_TEXT, FALSE_TEXT, TRUE_TEXT} ==>
              && (o + |t| <= |c| ==> (At(c + x, o, t) <==> At(c, o, t)))
              && (At(c, o, t) ==> o + |t| <= |c| && c[o] == t[0])
              && (At(c + x, o, t) ==> c[o] == t[0])
  {
    forall t | t in {NULL_TEXT, FALSE_TEXT, TRUE_TEXT}
      ensures o + |t| <= |c| ==> (At(c + x, o, t) <==> At(c, o, t))
      ensures At(c, o, t) ==> o + |t| <= |c| && c[o] == t[0]
      ensures At(c + x, o, t) ==> c[o] == t[0] {
      if o + |t| <= |c| {
        AtSame(c, x, o, t);
      }
      if At(c, o, t) {
        assert c[o..o + |t|][0] == c[o];
      }
      if At(c + x, o, t) {
        assert (c + x)[o..o + |t|][0] == c[o];
      }
    }
  }

  lemma {:induction false} ArraySame(c: seq<byte>, x: seq<byte>, o: nat, depth: nat)
    requires Seam(c, x) && Has(c, o, OPEN_BRACKET) && Has(c + x, o, OPEN_BRACKET)
    ensures Same(c, ParseArray(c, o, depth), ParseArray(c + x, o, depth))
    decreases Left(c, o) - 1, 3
  {
    var p := Skip(c, o + 1);
    SkipSame(c, x, o + 1);
    if p < |c| {
      assert (c + x)[p] == c[p];
      ItemsSame(c, x, p, depth + 1);
    }
    hide ParseItems, Skip, Seam;
  }

  lemma {:induction false} ItemsSame(c: seq<byte>, x: seq<byte>, o: nat, depth: nat)
    requires Seam(c, x) && o <= |c|
    ensures Same(c, ParseItems(c, o, depth), ParseItems(c + x, o, depth))
    decreases Left(c, o), 1
  {
    hide ParseValue, ParseItems, Skip, Seam, Has;
    var p := Skip(c, o);
    SkipSame(c, x, o);
    ItemsAre(c, o, depth);
    ItemsAre(c + x, o, depth);
    ValueSame(c, x, p, depth);
    var r := ParseValue(c + x, p, depth);
    if r.Ok? && r.next <= |c| {
      var q := Skip(c, r.next);
      SkipSame(c, x, r.next);
      HasSame(c, x, q);
      if q < |c| {
        ItemsSame(c, x, q + 1, depth);
      }
    }
  }

  lemma ItemsAre(c: seq<byte>, o: nat, depth: nat)
    ensures ParseItems(c, o, depth) ==
            var r := ParseValue(c, Skip(c, o), depth);
            if r.Err? then Err(r.at)
            else
              var q := Skip(c, r.next);
              if Has(c, q, COMMA) then
                var others := ParseItems(c, q + 1, depth);
                if others.Ok? then Ok([r.value] + others.value, others.next) else Err(others.at)
              else if Has(c, q, CLOSE_BRACKET) then Ok([r.value], q + 1) else Err(q)
  {
    hide ParseValue;
  }

  lemma HasSame(c: seq<byte>, x: seq<byte>, o: nat)
    ensures o < |c| ==> forall b :: Has(c + x, o, b) <==> Has(c, o, b)
    ensures o >= |c| ==> forall b :: !Has(c, o, b)
  {
    if o < |c| {
      assert (c + x)[o] == c[o];
    }
  }

  lemma {:induction false} ObjectSame(c: seq<byte>, x: seq<byte>, o: nat, depth: nat)
    requires Seam(c, x) && Has(c, o, OPEN_BRACE) && Has(c + x, o, OPEN_BRACE)
    ensures Same(c, ParseObject(c, o, depth), ParseObject(c + x, o, depth))
    decreases Left(c, o) - 1, 3
  {
    var p := Skip(c, o + 1);
    SkipSame(c, x, o + 1);
    if p < |c| {
      assert (c + x)[p] == c[p];
      MembersSame(c, x, p, depth + 1);
    }
    hide ParseMembers, Skip, Seam;
  }

  lemma {:induction false} MembersSame(c: seq<byte>, x: seq<byte>, o: nat, depth: nat)
    requires Seam(c, x) && o <= |c|
    ensures Same(c, ParseMembers(c, o, depth), ParseMembers(c + x, o, depth))
    decreases Left(c, o), 2
  {
    hide ParseMember, ParseMembers, Skip, Seam, Has;
    MembersAre(c, o, depth);
    MembersAre(c + x, o, depth);
    MemberSame(c, x, o, depth);
    var r := ParseMember(c + x, o, depth);
    if r.Ok? && r.next <= |c| {
      var q := Skip(c, r.next);
      SkipSame(c, x, r.next);
      HasSame(c, x, q);
      if q < |c| {
        MembersSame(c, x, q + 1, depth);
      }
    }
  }

  lemma MembersAre(c: seq<byte>, o: nat, depth: nat)
    ensures ParseMembers(c, o, depth) ==
            var r := ParseMember(c, o, depth);
            if r.Err? then Err(r.at)
            else
              var q := Skip(c, r.next);
              if Has(c, q, COMMA) then
                var others := ParseMembers(c, q + 1, depth);
                if others.Ok? then Ok([r.value] + others.value, others.next) else Err(others.at)
              else if Has(c, q, CLOSE_BRACE) then Ok([r.value], q + 1) else Err(q)
  {
    hide ParseMember;
  }

  lemma {:induction false} MemberSame(c: seq<byte>, x: seq<byte>, o: nat, depth: nat)
    requires Seam(c, x) && o <= |c|
    ensures Same(c, ParseMember(c, o, depth), ParseMember(c + x, o, depth))
    decreases Left(c, o), 1
  {
    hide ParseString, ParseValue, ParseMember, Skip, Seam, Has;
    var p := Skip(c, o);
    SkipSame(c, x, o);
    MemberIs(c, o, depth);
    MemberIs(c + x, o, depth);
    StringSame(c, x, p);
    var r := ParseString(c + x, p);
    if r.Ok? && r.next <= |c| {
      var q := Skip(c, r.next);
      SkipSame(c, x, r.next);
      HasSame(c, x, q);
      if q < |c| {
        SkipSame(c, x, q + 1);
        ValueSame(c, x, Skip(c, q + 1), depth);
      }
    }
  }

  lemma MemberIs(c: seq<byte>, o: nat, depth: nat)
    ensures ParseMember(c, o, depth) ==
            var key := ParseString(c, Skip(c, o));
            if key.Err? then Err(key.at)
            else
              var q := Skip(c, key.next);
              if !Has(c, q, COLON) then Err(q)
              else
                var r := ParseValue(c, Skip(c, q + 1), depth);
                if r.Ok? then Ok(Member(key.value, r.value), r.next) else Err(r.at)
  {
    hide ParseString, ParseValue;
  }

  // ---------- the input completed ----------

  // A member: an empty key and the number 0.
  const ONE_MEMBER: seq<byte> := [QUOTE, QUOTE, COLON, ZERO]

  predicate AreClosers(k: seq<byte>) {
    forall i :: 0 <= i < |k| ==> k[i] == CLOSE_BRACKET || k[i] == CLOSE_BRACE
  }

  function Completed(c: seq<byte>, k: seq<byte>): seq<byte> {
    c + (ONE_MEMBER + k)
  }

  // A parse that takes everything.
  ghost predicate Whole<T>(all: seq<byte>, r: Parsed<T>) {
    r.Ok? && r.next == |all|
  }

  lemma CommaSeam(c: seq<byte>, k: seq<byte>)
    requires LastIsComma(c)
    ensures Seam(c, ONE_MEMBER + k)
  {
  }

  lemma CloserSeam(c: seq<byte>, k: seq<byte>, closer: byte)
    requires AreClosers(k) && (closer == CLOSE_BRACKET || closer == CLOSE_BRACE)
    ensures Seam(Completed(c, k), [closer]) && AreClosers(k + [closer])
    ensures Completed(c, k + [closer]) == Completed(c, k) + [closer]
  {
    var all := Completed(c, k);
    assert all[|all| - 1] == if k == [] then ZERO else k[|k| - 1];
  }

  // One more closing bracket behind a completed input, where the parse has taken all.
  lemma ClosedBehind(all: seq<byte>, closer: byte)
    requires closer > COMMA
    ensures Skip(all + [closer], |all|) == |all| && Has(all + [closer], |all|, closer) && !Has(all + [closer], |all|, COMMA)
  {
  }

  lemma {:induction false} BuildValue(c: seq<byte>, o: nat, depth: nat) returns (k: seq<byte>)
    requires o <= |c| && LastIsComma(c) && CallsInValue(c, o, depth)
    ensures AreClosers(k) && Whole(Completed(c, k), ParseValue(Completed(c, k), o, depth))
    decreases Left(c, o), 2
  {
    hide Skip, Seam, At, ParseItems, ParseMembers, CallsInItems, CallsInMembers, AreClosers, LastIsComma, ParseString, ParseNumber;
    var p := Skip(c, o + 1);
    if Has(c, o, OPEN_BRACKET) {
      k := BuildItems(c, p, depth + 1);
    } else {
      k := BuildMembers(c, p, depth + 1);
    }
    CommaSeam(c, k);
    SkipSame(c, ONE_MEMBER + k, o + 1);
    HasSame(c, ONE_MEMBER + k, o);
    HasSame(c, ONE_MEMBER + k, p);
    NoLiteral(Completed(c, k), o);
  }

  lemma NoLiteral(c: seq<byte>, o: nat)
    requires Has(c, o, OPEN_BRACKET) || Has(c, o, OPEN_BRACE)
    ensures !At(c, o, NULL_TEXT) && !At(c, o, FALSE_TEXT) && !At(c, o, TRUE_TEXT)
  {
    hide At;
    FirstOfText(c, o, NULL_TEXT);
    FirstOfText(c, o, FALSE_TEXT);
    FirstOfText(c, o, TRUE_TEXT);
  }

  lemma FirstOfText(c: seq<byte>, o: nat, t: seq<byte>)
    requires t != []
    ensures At(c, o, t) ==> o < |c| && c[o] == t[0]
  {
    if At(c, o, t) {
      assert c[o..o + |t|][0] == c[o];
    }
  }

  lemma {:induction false} BuildItems(c: seq<byte>, o: nat, depth: nat) returns (k: seq<byte>)
    requires o <= |c| && LastIsComma(c) && CallsInItems(c, o, depth)
    ensures AreClosers(k) && Whole(Completed(c, k), ParseItems(Completed(c, k), o, depth))
    decreases Left(c, o), 3
  {
    hide ParseValue, ParseItems, Skip, Seam, Has, Completed, CallsInValue, LastIsComma, AreClosers;
    var p := Skip(c, o);
    var r := ParseValue(c, p, depth);
    InsideSkip(c, o);
    if CallsInValue(c, p, depth) {
      var k0 := BuildValue(c, p, depth);
      k := k0 + [CLOSE_BRACKET];
      CloserSeam(c, k0, CLOSE_BRACKET);
      ClosedBehind(Completed(c, k0), CLOSE_BRACKET);
      SameStart(c, k, o);
      SizeOfCompleted(c, k0);
      SizeOfCompleted(c, k);
      ValueSame(Completed(c, k0), [CLOSE_BRACKET], p, depth);
      ItemsAre(Completed(c, k), o, depth);
    } else {
      var q := Skip(c, r.next);
      HasInside(c, q, COMMA);
      k := BuildItems(c, q + 1, depth);
      SameStart(c, k, o);
      SameStart(c, k, r.next);
      CommaSeam(c, k);
      CompletedIs(c, k);
      HasSame(c, ONE_MEMBER + k, q);
      ValueSame(c, ONE_MEMBER + k, p, depth);
      ItemsAre(Completed(c, k), o, depth);
    }
  }

  lemma InsideSkip(c: seq<byte>, o: nat)
    requires o <= |c| && LastIsComma(c)
    ensures Skip(c, o) <= |c| && (o < |c| ==> Skip(c, o) < |c|)
  {
  }

  lemma HasInside(c: seq<byte>, o: nat, b: byte)
    requires Has(c, o, b)
    ensures o < |c|
  {
  }

  lemma CompletedIs(c: seq<byte>, k: seq<byte>)
    ensures Completed(c, k) == c + (ONE_MEMBER + k)
  {
  }

  lemma SizeOfCompleted(c: seq<byte>, k: seq<byte>)
    ensures |Completed(c, k)| == |c| + 4 + |k|
  {
  }

  lemma SameStart(c: seq<byte>, k: seq<byte>, o: nat)
    requires o <= |c| && LastIsComma(c)
    ensures Skip(Completed(c, k), o) == Skip(c, o)
  {
    CommaSeam(c, k);
    SkipSame(c, ONE_MEMBER + k, o);
  }

  lemma {:induction false} BuildMembers(c: seq<byte>, o: nat, depth: nat) returns (k: seq<byte>)
    requires o <= |c| && LastIsComma(c) && CallsInMembers(c, o, depth)
    ensures AreClosers(k) && Whole(Completed(c, k), ParseMembers(Completed(c, k), o, depth))
    decreases Left(c, o), 4
  {
    hide ParseMember, ParseMembers, Skip, Seam, Has, Completed, CallsInMember, LastIsComma, AreClosers;
    var r := ParseMember(c, o, depth);
    if CallsInMember(c, o, depth) {
      var k0 := BuildMember(c, o, depth);
      k := k0 + [CLOSE_BRACE];
      CloserSeam(c, k0, CLOSE_BRACE);
      ClosedBehind(Completed(c, k0), CLOSE_BRACE);
      SizeOfCompleted(c, k0);
      SizeOfCompleted(c, k);
      MemberSame(Completed(c, k0), [CLOSE_BRACE], o, depth);
      MembersAre(Completed(c, k), o, depth);
    } else {
      var q := Skip(c, r.next);
      HasInside(c, q, COMMA);
      k := BuildMembers(c, q + 1, depth);
      SameStart(c, k, r.next);
      CommaSeam(c, k);
      CompletedIs(c, k);
      HasSame(c, ONE_MEMBER + k, q);
      MemberSame(c, ONE_MEMBER + k, o, depth);
      MembersAre(Completed(c, k), o, depth);
    }
  }

  lemma {:induction false} BuildMember(c: seq<byte>, o: nat, depth: nat) returns (k: seq<byte>)
    requires o <= |c| && LastIsComma(c) && CallsInMember(c, o, depth)
    ensures AreClosers(k) && Whole(Completed(c, k), ParseMember(Completed(c, k), o, depth))
    decreases Left(c, o), 3
  {
    hide ParseString, ParseValue, ParseMember, Skip, Seam, Has, Completed, CallsInValue, LastIsComma, AreClosers;
    var p := Skip(c, o);
    InsideSkip(c, o);
    if p == |c| {
      k := [];
      OneMember(c, o, depth);
      NoClosers();
    } else {
      var key := ParseString(c, p);
      var q := Skip(c, key.next);
      HasInside(c, q, COLON);
      InsideSkip(c, q + 1);
      k := BuildValue(c, Skip(c, q + 1), depth);
      CompletedIs(c, k);
      SameStart(c, k, o);
      SameStart(c, k, key.next);
      SameStart(c, k, q + 1);
      HasSame(c, ONE_MEMBER + k, q);
      StringSame(c, ONE_MEMBER + k, p);
      MemberIs(Completed(c, k), o, depth);
    }
  }

  lemma NoClosers()
    ensures AreClosers([])
  {
  }

  // The member that completes the input, where its key is looked for.
  lemma OneMember(c: seq<byte>, o: nat, depth: nat)
    requires o <= |c| && LastIsComma(c) && Skip(c, o) == |c|
    ensures var all := Completed(c, []); Whole(all, ParseMember(all, o, depth))
  {
    var all := Completed(c, []);
    var n := |c|;
    assert all[n] == QUOTE && all[n + 1] == QUOTE && all[n + 2] == COLON && all[n + 3] == ZERO && |all| == n + 4;
    SameStart(c, [], o);
    MemberIs(all, o, depth);
    Here(all, n + 2);
    Here(all, n + 3);
    assert Closing(all, n + 1) == Some(n + 1);
    assert ParseString(all, n) == Ok([], n + 2);
    LastDigit(all, n + 3, depth);
    hide ParseMember, ParseValue, Skip, Closing, Decode, LastIsComma;
  }

  lemma LastDigit(all: seq<byte>, o: nat, depth: nat)
    requires o + 1 == |all| && all[o] == ZERO
    ensures Whole(all, ParseValue(all, o, depth))
  {
    assert !At(all, o, NULL_TEXT) && !At(all, o, FALSE_TEXT) && !At(all, o, TRUE_TEXT);
    assert NumberCharCount(all, o + 1, 62) == 0;
    assert NumberCharCount(all, o, 63) == 1;
    assert all[o..o + 1] == [ZERO];
    assert DigitRun([ZERO], 1) == 1 && DigitRun([ZERO], 0) == 1;
    hide ValueInt, DigitsValue, ParseArray, ParseObject, ParseString;
  }

  // ---------- and the other way round ----------

  // A string that starts in c is closed there, or by the quote right behind it.
  lemma {:induction false} ClosingSpans(c: seq<byte>, x: seq<byte>, i: nat)
    requires Seam(c, x) && c != [] && x[0] == QUOTE && i <= |c|
    ensures Closing(c + x, i).Some? && Closing(c + x, i).value <= |c|
    decreases |c| - i
  {
    if i < |c| {
      assert (c + x)[i] == c[i];
      if c[i] == BACKSLASH {
        ClosingSpans(c, x, i + 2);
      } else if c[i] != QUOTE {
        ClosingSpans(c, x, i + 1);
      }
    } else {
      assert (c + x)[i] == x[0];
    }
  }

  // What stands behind a string that is closed by that quote: another quote, which nothing allows.
  lemma BehindString(c: seq<byte>, k: seq<byte>)
    ensures Skip(Completed(c, k), |c| + 1) == |c| + 1
    ensures !Has(Completed(c, k), |c| + 1, COMMA) && !Has(Completed(c, k), |c| + 1, COLON)
    ensures !Has(Completed(c, k), |c| + 1, CLOSE_BRACKET) && !Has(Completed(c, k), |c| + 1, CLOSE_BRACE)
  {
    assert Completed(c, k)[|c| + 1] == QUOTE;
  }

  lemma AtEnd(c: seq<byte>, k: seq<byte>)
    ensures !Has(Completed(c, k), |c|, COMMA) && !Has(Completed(c, k), |c|, COLON)
    ensures !Has(Completed(c, k), |c|, CLOSE_BRACKET) && !Has(Completed(c, k), |c|, CLOSE_BRACE)
  {
    assert Completed(c, k)[|c|] == QUOTE;
  }

  // A literal cannot go on behind c, as it has no comma.
  lemma LiteralEnds(c: seq<byte>, k: seq<byte>, o: nat, t: seq<byte>)
    requires o < |c| && LastIsComma(c) && COMMA !in t
    ensures At(Completed(c, k), o, t) ==> o + |t| <= |c|
  {
    TextAt(Completed(c, k), o, t, |c| - 1);
  }

  lemma TextAt(c: seq<byte>, o: nat, t: seq<byte>, i: nat)
    requires o <= i
    ensures At(c, o, t) && i < o + |t| ==> c[i] in t
  {
    if At(c, o, t) && i < o + |t| {
      assert c[o..o + |t|][i - o] == c[i];
    }
  }

  lemma StringEnds(c: seq<byte>, k: seq<byte>, o: nat)
    requires o < |c| && LastIsComma(c)
    ensures var r := ParseString(Completed(c, k), o); r.Ok? ==> r.next <= |c| + 1
  {
    CommaSeam(c, k);
    ClosingSpans(c, ONE_MEMBER + k, o + 1);
    hide Closing, Decode;
  }

  // A value that goes on behind c is one with the call, or a string closed right there.
  lemma {:induction false} SpanValue(c: seq<byte>, k: seq<byte>, o: nat, depth: nat)
    requires o < |c| && LastIsComma(c)
    ensures var r := ParseValue(Completed(c, k), o, depth);
            r.Ok? && r.next > |c| ==> r.next == |c| + 1 || CallsInValue(c, o, depth)
    decreases Left(c, o), 2
  {
    CommaSeam(c, k);
    CompletedIs(c, k);
    HasSame(c, ONE_MEMBER + k, o);
    if Has(c, o, OPEN_BRACKET) {
      SpanArray(c, k, o, depth);
    } else if Has(c, o, OPEN_BRACE) {
      SpanObject(c, k, o, depth);
    } else {
      LiteralEnds(c, k, o, NULL_TEXT);
      LiteralEnds(c, k, o, FALSE_TEXT);
      LiteralEnds(c, k, o, TRUE_TEXT);
      NumberSame(c, ONE_MEMBER + k, o);
      StringEnds(c, k, o);
    }
    hide ParseNumber, ParseString, ParseArray, ParseObject, At, Seam, Completed, CallsInValue;
  }

  lemma {:induction false} SpanArray(c: seq<byte>, k: seq<byte>, o: nat, depth: nat)
    requires LastIsComma(c) && Has(c, o, OPEN_BRACKET) && Has(Completed(c, k), o, OPEN_BRACKET)
    ensures var r := ParseValue(Completed(c, k), o, depth); r.Ok? && r.next > |c| ==> CallsInValue(c, o, depth)
    decreases Left(c, o), 1
  {
    hide ParseItems, CallsInItems, CallsInMembers, At, Skip, Completed, ParseString, ParseNumber;
    var p := Skip(c, o + 1);
    NoLiteral(c, o);
    NoLiteral(Completed(c, k), o);
    SameStart(c, k, o + 1);
    InsideSkip(c, o + 1);
    CompletedIs(c, k);
    HasSame(c, ONE_MEMBER + k, p);
    AtEnd(c, k);
    SpanItems(c, k, p, depth + 1);
  }

  lemma {:induction false} SpanObject(c: seq<byte>, k: seq<byte>, o: nat, depth: nat)
    requires LastIsComma(c) && Has(c, o, OPEN_BRACE) && Has(Completed(c, k), o, OPEN_BRACE)
    ensures var r := ParseValue(Completed(c, k), o, depth); r.Ok? && r.next > |c| ==> CallsInValue(c, o, depth)
    decreases Left(c, o), 1
  {
    hide ParseMembers, CallsInItems, CallsInMembers, At, Skip, Completed, ParseString, ParseNumber;
    var p := Skip(c, o + 1);
    NoLiteral(c, o);
    NoLiteral(Completed(c, k), o);
    SameStart(c, k, o + 1);
    InsideSkip(c, o + 1);
    CompletedIs(c, k);
    HasSame(c, ONE_MEMBER + k, p);
    AtEnd(c, k);
    SpanMembers(c, k, p, depth + 1);
  }

  lemma {:induction false} SpanItems(c: seq<byte>, k: seq<byte>, o: nat, depth: nat)
    requires o <= |c| && LastIsComma(c)
    ensures var r := ParseItems(Completed(c, k), o, depth); r.Ok? && r.next > |c| ==> CallsInItems(c, o, depth)
    decreases Left(c, o), 3
  {
    hide ParseValue, ParseItems, Skip, Seam, Has, Completed, CallsInValue, LastIsComma;
    var p := Skip(c, o);
    InsideSkip(c, o);
    SameStart(c, k, o);
    ItemsAre(Completed(c, k), o, depth);
    BehindString(c, k);
    AtEnd(c, k);
    if p == |c| {
      KeyIsNoItem(c, k, depth);
    } else {
      var r := ParseValue(Completed(c, k), p, depth);
      CompletedIs(c, k);
      CommaSeam(c, k);
      ValueSame(c, ONE_MEMBER + k, p, depth);
      SpanValue(c, k, p, depth);
      if r.Ok? && r.next <= |c| {
        var q := Skip(c, r.next);
        SameStart(c, k, r.next);
        InsideSkip(c, r.next);
        HasSame(c, ONE_MEMBER + k, q);
        if q < |c| {
          SpanItems(c, k, q + 1, depth);
        }
      }
    }
  }

  // Where the key of the added member stands as an element, its colon is in the way.
  lemma KeyIsNoItem(c: seq<byte>, k: seq<byte>, depth: nat)
    ensures var all := Completed(c, k);
            var r := ParseValue(all, |c|, depth);
            r.Ok? ==> Has(all, Skip(all, r.next), COLON) && !Has(all, Skip(all, r.next), COMMA)
                      && !Has(all, Skip(all, r.next), CLOSE_BRACKET)
  {
    var all, n := Completed(c, k), |c|;
    assert all[n] == QUOTE && all[n + 1] == QUOTE && all[n + 2] == COLON;
    assert Closing(all, n + 1) == Some(n + 1);
    Here(all, n + 2);
    FirstOfText(all, n, NULL_TEXT);
    FirstOfText(all, n, FALSE_TEXT);
    FirstOfText(all, n, TRUE_TEXT);
    hide At, Skip, Completed, Closing, ParseNumber, ParseArray, ParseObject;
  }

  lemma {:induction false} SpanMembers(c: seq<byte>, k: seq<byte>, o: nat, depth: nat)
    requires o <= |c| && LastIsComma(c)
    ensures var r := ParseMembers(Completed(c, k), o, depth); r.Ok? && r.next > |c| ==> CallsInMembers(c, o, depth)
    decreases Left(c, o), 4
  {
    hide ParseMember, ParseMembers, Skip, Seam, Has, Completed, CallsInMember, LastIsComma;
    MembersAre(Completed(c, k), o, depth);
    BehindString(c, k);
    AtEnd(c, k);
    var r := ParseMember(Completed(c, k), o, depth);
    CompletedIs(c, k);
    CommaSeam(c, k);
    MemberSame(c, ONE_MEMBER + k, o, depth);
    SpanMember(c, k, o, depth);
    if r.Ok? && r.next <= |c| {
      var q := Skip(c, r.next);
      SameStart(c, k, r.next);
      InsideSkip(c, r.next);
      HasSame(c, ONE_MEMBER + k, q);
      if q < |c| {
        SpanMembers(c, k, q + 1, depth);
      }
    }
  }

  lemma {:induction false} SpanMember(c: seq<byte>, k: seq<byte>, o: nat, depth: nat)
    requires o <= |c| && LastIsComma(c)
    ensures var r := ParseMember(Completed(c, k), o, depth);
            r.Ok? && r.next > |c| ==> r.next == |c| + 1 || CallsInMember(c, o, depth)
    decreases Left(c, o), 3
  {
    hide ParseString, ParseValue, ParseMember, Skip, Seam, Has, Completed, CallsInValue;
    var p := Skip(c, o);
    InsideSkip(c, o);
    SameStart(c, k, o);
    MemberIs(Completed(c, k), o, depth);
    BehindString(c, k);
    AtEnd(c, k);
    if p < |c| {
      var key := ParseString(Completed(c, k), p);
      StringEnds(c, k, p);
      CompletedIs(c, k);
      StringSame(c, ONE_MEMBER + k, p);
      if key.Ok? && key.next <= |c| {
        var q := Skip(c, key.next);
        SameStart(c, k, key.next);
        InsideSkip(c, key.next);
        HasSame(c, ONE_MEMBER + k, q);
        if q < |c| && Has(c, q, COLON) {
          ColonIsNotLast(c, q);
          InsideSkip(c, q + 1);
          SameStart(c, k, q + 1);
          CommaSeam(c, k);
          ValueSame(c, ONE_MEMBER + k, Skip(c, q + 1), depth);
          SpanValue(c, k, Skip(c, q + 1), depth);
        }
      }
    }
  }

  lemma ColonIsNotLast(c: seq<byte>, q: nat)
    requires LastIsComma(c) && Has(c, q, COLON)
    ensures q + 1 < |c|
  {
  }

  // ---------- main result ----------

  ghost predicate Completes(c: seq<byte>, o: nat, k: seq<byte>) {
    AreClosers(k) && Whole(Completed(c, k), ParseValue(Completed(c, k), o, 0))
  }

  // The parser looks behind its input exactly when that ends in a comma, and one more member and
  // some closing brackets behind it make it a whole value.
  lemma LooksWhenCompleted(c: seq<byte>, o: nat)
    requires o <= |c|
    ensures LooksBehind(c, ParseValue(c, o, 0)) <==> LastIsComma(c) && exists k :: Completes(c, o, k)
  {
    hide ParseValue, LooksBehind, CallsInValue, LastIsComma;
    LooksExactly(c, o);
    if CallsInValue(c, o, 0) {
      var k := BuildValue(c, o, 0);
      assert Completes(c, o, k);
    }
    if LastIsComma(c) {
      forall k | Completes(c, o, k) ensures CallsInValue(c, o, 0) {
        SizeOfCompleted(c, k);
        if o < |c| {
          SpanValue(c, k, o, 0);
        } else {
          KeyIsNoItem(c, k, 0);
          hide Completed;
          NothingBehind(Completed(c, k), ParseValue(Completed(c, k), o, 0).next);
        }
      }
    }
  }

  lemma NothingBehind(all: seq<byte>, o: nat)
    requires o >= |all|
    ensures !Has(all, Skip(all, o), COLON)
  {
  }
}
