// The growable buffer that the printer of cjson.c writes through, and the printing of what has no
// children: words, numbers, strings and keys, proved against the pure text of Json.Text.
module PrintBuffer {
  import opened Bytes
  import opened Json
  import opened TextFacts

  const SIZE_MAX: nat := 0xFFFF_FFFF_FFFF_FFFF

  class PrintBuffer {
    var buffer: array<byte>
    var offset: nat
    var depth: nat
    const noalloc: bool
    const format: bool
    const hasRealloc: bool

    // Only a buffer that realloc may grow, or that may not grow at all, can start out empty:
    // the manual growth path copies offset + 1 bytes.
    ghost predicate Valid()
      reads this
    {
      && buffer.Length <= SIZE_MAX
      && (offset < buffer.Length || (offset == 0 == buffer.Length && (noalloc || hasRealloc)))
    }

    // The bytes the buffer can have at most.
    ghost function Limit(): nat
      reads this
    {
      if noalloc then buffer.Length else SIZE_MAX
    }

    // The text printed so far.
    ghost function Content(): seq<byte>
      reads this, buffer
      requires Valid()
    {
      buffer[..offset]
    }

    // start + text stands in the buffer, NUL-terminated, with offset somewhere inside text.
    ghost predicate Printed(start: seq<byte>, text: seq<byte>)
      reads this, buffer
    {
      && |start| + |text| < buffer.Length
      && buffer[..|start| + |text|] == start + text
      && buffer[|start| + |text|] == 0
      && |start| <= offset <= |start| + |text|
    }

    constructor (buffer: array<byte>, noalloc: bool, format: bool, hasRealloc: bool)
      requires buffer.Length <= SIZE_MAX
      requires buffer.Length > 0 || noalloc || hasRealloc
      ensures Valid() && Content() == [] && depth == 0 && this.buffer == buffer
      ensures this.noalloc == noalloc && this.format == format && this.hasRealloc == hasRealloc
    {
      this.buffer := buffer;
      this.offset := 0;
      this.depth := 0;
      this.noalloc := noalloc;
      this.format := format;
      this.hasRealloc := hasRealloc;
    }

    // Makes room for needed more bytes and one beyond; what lies before offset survives.
    method Ensure(needed: nat) returns (ok: bool)
      requires Valid()
      modifies this`buffer
      ensures Valid() && Limit() == old(Limit())
      ensures ok <==> offset + needed + 1 <= Limit()
      ensures ok ==> offset + needed < buffer.Length
      ensures Content() == old(Content())
      ensures buffer == old(buffer) || (fresh(buffer) && !noalloc)
      ensures !ok || offset + needed < old(buffer.Length) ==> buffer == old(buffer)
      ensures ok && offset + needed >= old(buffer.Length) ==>
                buffer.Length == var total := offset + needed + 1; if 2 * total <= SIZE_MAX then 2 * total else SIZE_MAX
    {
      if buffer.Length > 0 && offset >= buffer.Length {
        return false;
      }
      if needed > SIZE_MAX {
        return false;
      }
      var total := needed + offset + 1;
      if total <= buffer.Length {
        return true;
      }
      if noalloc {
        return false;
      }
      var newSize;
      if total > SIZE_MAX / 2 {
        if total <= SIZE_MAX {
          newSize := SIZE_MAX;
        } else {
          return false;
        }
      } else {
        newSize := total * 2;
      }
      var newBuffer := new byte[newSize];
      if hasRealloc {
        forall i | 0 <= i < buffer.Length {
          newBuffer[i] := buffer[i];
        }
      } else {
        forall i | 0 <= i < offset + 1 {
          newBuffer[i] := buffer[i];
        }
      }
      assert newBuffer[..offset] == buffer[..offset];
      buffer := newBuffer;
      return true;
    }

    // Moves offset to the next NUL, as strlen finds it.
    method UpdateOffset()
      requires Valid()
      requires exists k :: offset <= k < buffer.Length && buffer[k] == 0
      modifies this`offset
      ensures Valid()
      ensures old(offset) <= offset && buffer[offset] == 0
      ensures forall i :: old(offset) <= i < offset ==> buffer[i] != 0
    {
      var end := offset;
      while buffer[end] != 0
        invariant offset <= end < buffer.Length
        invariant exists k :: end <= k < buffer.Length && buffer[k] == 0
        invariant forall i :: offset <= i < end ==> buffer[i] != 0
        decreases buffer.Length - end
      {
        end := end + 1;
      }
      offset := end;
    }

    // After a value has been printed, UpdateOffset puts offset at the end of its text.
    method FinishPrinted(ghost start: seq<byte>, ghost text: seq<byte>)
      requires Valid() && Printed(start, text) && NulFree(text)
      modifies this`offset
      ensures Valid() && Content() == start + text
    {
      ghost var end := |start| + |text|;
      assert forall i :: |start| <= i < end ==> buffer[i] == (start + text)[i] != 0;
      UpdateOffset();
      assert offset == end;
    }

    // A text and its NUL right after start are a printed text.
    lemma PrintedFrom(start: seq<byte>, text: seq<byte>)
      requires |start| + |text| + 1 <= buffer.Length
      requires buffer[..|start| + |text| + 1] == start + text + [0]
      requires |start| <= offset <= |start| + |text|
      ensures Printed(start, text)
    {
      var n := |start| + |text|;
      assert buffer[..n] == buffer[..n + 1][..n];
      assert buffer[n] == buffer[..n + 1][n];
    }

    // A text printed after inner is the tail of a longer one printed after start.
    lemma PrintedWithin(start: seq<byte>, inner: seq<byte>, tail: seq<byte>, text: seq<byte>)
      requires Printed(inner, tail) && inner + tail == start + text && |start| <= |inner|
      ensures Printed(start, text)
    {
    }

    lemma PrintedText(text: seq<byte>)
      requires Printed([], text)
      ensures At(buffer[..], 0, text + [0])
    {
      var n := |text|;
      assert buffer[..][0..n + 1] == buffer[..n] + [buffer[n]];
      assert [] + text == text;
    }

    // strcpy and memcpy into the buffer.
    method Store(at: nat, text: seq<byte>)
      requires at + |text| <= buffer.Length
      modifies buffer
      ensures buffer[..at + |text|] == old(buffer[..at]) + text
    {
      forall i | 0 <= i < |text| {
        buffer[at + i] := text[i];
      }
    }

    // One escaped byte, written at position at.
    method StoreEscape(at: nat, c: byte) returns (next: nat)
      requires c != 0 && at + |Escape(c)| < buffer.Length
      modifies buffer
      ensures next == at + |Escape(c)|
      ensures buffer[..next] == old(buffer[..at]) + Escape(c)
    {
      next := at;
      if c > 31 && c != QUOTE && c != BACKSLASH {
        buffer[next] := c;
      } else {
        buffer[next] := BACKSLASH;
        next := next + 1;
        if c == BACKSLASH {
          buffer[next] := BACKSLASH;
        } else if c == QUOTE {
          buffer[next] := QUOTE;
        } else if c == BACKSPACE {
          buffer[next] := 'b' as int;
        } else if c == FORM_FEED {
          buffer[next] := 'f' as int;
        } else if c == NEWLINE {
          buffer[next] := 'n' as int;
        } else if c == CARRIAGE_RETURN {
          buffer[next] := 'r' as int;
        } else if c == TAB {
          buffer[next] := 't' as int;
        } else {
          // sprintf of "u%04x", with its NUL
          buffer[next] := LETTER_U;
          buffer[next + 1] := ZERO;
          buffer[next + 2] := ZERO;
          buffer[next + 3] := HexDigit(c / 16);
          buffer[next + 4] := HexDigit(c % 16);
          buffer[next + 5] := 0;
          next := next + 4;
        }
      }
      next := next + 1;
    }

    // How many bytes the escapes of a string add to it.
    static method CountEscapes(input: CString) returns (extra: nat)
      ensures |input| + extra == |EscapeAll(input)|
    {
      extra := 0;
      var i := 0;
      while i < |input|
        invariant 0 <= i <= |input|
        invariant |EscapeAll(input)| == i + extra + |EscapeAll(input[i..])|
      {
        EscapeStep(input, i);
        if input[i] == QUOTE || input[i] == BACKSLASH || input[i] == BACKSPACE || input[i] == FORM_FEED
           || input[i] == NEWLINE || input[i] == CARRIAGE_RETURN || input[i] == TAB {
          extra := extra + 1;
        } else if input[i] < 32 {
          extra := extra + 5;
        }
        i := i + 1;
      }
    }

    // The escaped string between its quotes, from position at on.
    method StoreEscaped(at: nat, input: CString)
      requires at + |EscapeAll(input)| < buffer.Length
      modifies buffer
      ensures buffer[..at + |EscapeAll(input)|] == old(buffer[..at]) + EscapeAll(input)
    {
      ghost var start := buffer[..at];
      ghost var written: seq<byte> := [];
      var next, i := at, 0;
      while i < |input|
        invariant 0 <= i <= |input|
        invariant EscapeAll(input) == written + EscapeAll(input[i..])
        invariant next == at + |written|
        invariant buffer[..next] == start + written
      {
        ghost var e := Escape(input[i]);
        EscapeStep(input, i);
        Assoc(written, e, EscapeAll(input[i + 1..]));
        Assoc(start, written, e);
        next := StoreEscape(next, input[i]);
        written := written + e;
        i := i + 1;
      }
      assert written + EscapeAll(input[i..]) == written;
    }

    // A string that needs no escape is copied as it is.
    method StoreBody(at: nat, input: CString, extra: nat)
      requires |input| + extra == |EscapeAll(input)| && at + |EscapeAll(input)| < buffer.Length
      modifies buffer
      ensures buffer[..at + |EscapeAll(input)|] == old(buffer[..at]) + EscapeAll(input)
    {
      if extra == 0 {
        EscapeNothing(input);
        Store(at, input);
      } else {
        StoreEscaped(at, input);
      }
    }

    // The quoted string from offset on, once there is room for it.
    method StoreString(input: CString, extra: nat)
      requires Valid() && |input| + extra == |EscapeAll(input)|
      requires offset + |input| + extra + 2 < buffer.Length
      modifies buffer
      ensures Printed(old(Content()), StringText(input))
    {
      ghost var start := Content();
      var length := |input| + extra;
      Store(offset, [QUOTE]);
      StoreBody(offset + 1, input, extra);
      Store(offset + 1 + length, [QUOTE, 0]);
      QuotedAfter(start, EscapeAll(input));
      PrintedFrom(start, StringText(input));
    }

    method PrintStringPtr(input: Option<CString>) returns (ok: bool)
      requires Valid()
      modifies this`buffer, buffer
      ensures Valid() && Limit() == old(Limit()) && offset == old(offset)
      ensures buffer == old(buffer) || (fresh(buffer) && !noalloc)
      ensures var text := StringText(if input.Some? then input.value else []);
              && (ok <==> offset + |text| + 2 <= Limit())
              && (ok ==> Printed(old(Content()), text))
    {
      if input.None? {
        ok := Ensure(3);
        if ok {
          Store(offset, [QUOTE, QUOTE, 0]);
        }
        return;
      }
      var extra := CountEscapes(input.value);
      ok := Ensure(|input.value| + extra + 3);
      if !ok {
        return;
      }
      StoreString(input.value, extra);
    }

    method PrintNumber(n: Int64) returns (ok: bool)
      requires Valid()
      modifies this`buffer, this`offset, buffer
      ensures Valid() && Limit() == old(Limit())
      ensures buffer == old(buffer) || (fresh(buffer) && !noalloc)
      ensures ok <==> old(offset) + |NumberText(n)| + 2 <= Limit()
      ensures ok ==> Printed(old(Content()), NumberText(n))
      ensures !ok ==> offset == old(offset)
    {
      var number := NumberText(n);
      NumberTextBound(n);
      if |number| > 25 {
        return false;
      }
      ok := Ensure(|number| + 1);
      if ok {
        ghost var start := Content();
        Store(offset, number);
        buffer[offset + |number|] := 0;
        offset := offset + |number|;
        assert buffer[..offset] == start + number;
      }
    }

    method PrintWord(word: seq<byte>) returns (ok: bool)
      requires Valid()
      modifies this`buffer, buffer
      ensures Valid() && Limit() == old(Limit()) && offset == old(offset)
      ensures buffer == old(buffer) || (fresh(buffer) && !noalloc)
      ensures ok <==> offset + |word| + 2 <= Limit()
      ensures ok ==> Printed(old(Content()), word)
    {
      ok := Ensure(|word| + 1);
      if ok {
        ghost var start := Content();
        Store(offset, word + [0]);
        assert buffer[..offset + |word|] == start + word;
      }
    }

    // Asks for room bytes, writes text (and a NUL behind it) and moves offset past text.
    method Put(text: seq<byte>, room: nat, terminate: bool) returns (ok: bool)
      requires Valid() && |text| + (if terminate then 1 else 0) <= room
      modifies this`buffer, this`offset, buffer
      ensures Valid() && Limit() == old(Limit())
      ensures buffer == old(buffer) || (fresh(buffer) && !noalloc)
      ensures ok <==> old(offset) + room + 1 <= Limit()
      ensures ok ==> Content() == old(Content()) + text
      ensures !ok ==> offset == old(offset)
    {
      ok := Ensure(room);
      if ok {
        Store(offset, if terminate then text + [0] else text);
        offset := offset + |text|;
      }
    }

    // The end of an array or object: its bracket is printed and the depth goes back.
    method Close(closing: seq<byte>, ghost start: seq<byte>, ghost text: seq<byte>) returns (ok: bool)
      requires Valid() && depth > 0
      requires Content() + closing == start + text && |start| <= offset
      modifies this`buffer, this`depth, buffer
      ensures Valid() && Limit() == old(Limit()) && depth == old(depth) - 1
      ensures buffer == old(buffer) || (fresh(buffer) && !noalloc)
      ensures ok <==> |start| + |text| + 2 <= Limit()
      ensures ok ==> Printed(start, text)
    {
      ghost var inner := Content();
      assert |inner + closing| == |start + text|;
      ok := PrintWord(closing);
      depth := depth - 1;
      if ok {
        PrintedWithin(start, inner, closing, text);
      }
    }

    method PrintKeyString(key: Option<CString>) returns (ok: bool)
      requires Valid() && key.Some?
      modifies this`buffer, this`offset, buffer
      ensures Valid() && Limit() == old(Limit())
      ensures buffer == old(buffer) || (fresh(buffer) && !noalloc)
      ensures ok <==> old(offset) + |StringText(key.value)| + 2 <= Limit()
      ensures ok ==> Content() == old(Content()) + StringText(key.value)
    {
      hide StringText;
      ok := PrintStringPtr(key);
      if ok {
        StringNulFree(key.value);
        FinishPrinted(old(Content()), StringText(key.value));
      }
    }

    method PrintKey(key: Option<CString>) returns (ok: bool)
      requires Valid() && key.Some?
      modifies this`buffer, this`offset, buffer
      ensures Valid() && Limit() == old(Limit())
      ensures buffer == old(buffer) || (fresh(buffer) && !noalloc)
      ensures !ok ==> old(offset) + |KeyText(key.value, format, depth)| + 2 > Limit()
      ensures ok ==> Content() == old(Content()) + KeyText(key.value, format, depth)
    {
      KeyTextShape(key.value, format, depth, Content());
      hide KeyText, StringText;
      if format {
        ok := Put(Tabs(depth), depth, false);
        if !ok {
          return;
        }
      }
      ok := PrintKeyString(key);
      if !ok {
        return;
      }
      var separator := KeySeparator(format);
      ok := Put(separator, |separator|, false);
    }
  }
}
