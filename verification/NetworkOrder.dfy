// Numbers in network order: htonl and ntohl for four bytes, htobe64 and be64toh for eight.
module NetworkOrder {
  import opened Bytes

  // The last bytes of n, the most significant one first.
  function BigEndian(n: nat, width: nat): (b: seq<byte>)
    ensures |b| == width
  {
    if width == 0 then [] else BigEndian(n / 256, width - 1) + [n % 256]
  }

  function FromBigEndian(b: seq<byte>): nat {
    if b == [] then 0 else FromBigEndian(b[..|b| - 1]) * 256 + b[|b| - 1]
  }

  function Power256(k: nat): (p: nat)
    ensures p >= 1
  {
    if k == 0 then 1 else 256 * Power256(k - 1)
  }

  lemma {:induction false} BigEndianRoundTrip(n: nat, width: nat)
    requires n < Power256(width)
    ensures FromBigEndian(BigEndian(n, width)) == n
  {
    if width > 0 {
      var b := BigEndian(n, width);
      assert b[..width - 1] == BigEndian(n / 256, width - 1) && b[width - 1] == n % 256;
      BigEndianRoundTrip(n / 256, width - 1);
    }
  }

  lemma {:induction false} FromBigEndianBound(b: seq<byte>)
    ensures FromBigEndian(b) < Power256(|b|)
  {
    if b != [] {
      FromBigEndianBound(b[..|b| - 1]);
    }
  }

  // What comes back is the number exactly while it fits.
  lemma RoundTrips(n: nat, width: nat)
    ensures FromBigEndian(BigEndian(n, width)) == n <==> n < Power256(width)
  {
    FromBigEndianBound(BigEndian(n, width));
    if n < Power256(width) {
      BigEndianRoundTrip(n, width);
    }
  }

  lemma Quotients(n: nat, b: nat)
    requires b >= 1
    ensures n / 256 / b == n / (256 * b)
  {
    var q := n / 256 / b;
    var r := n / 256 - q * b;
    assert n == 256 * (q * b + r) + n % 256 == (256 * b) * q + (256 * r + n % 256);
    assert 0 <= 256 * r + n % 256 < 256 * b;
    Quotient(n, 256 * b, q, 256 * r + n % 256);
  }

  lemma Quotient(n: nat, d: nat, q: nat, r: nat)
    requires n == d * q + r && r < d
    ensures n / d == q
  {
    assert d * (n / d - q) == r - n % d;
    SmallMultiple(d, n / d - q);
  }

  lemma SmallMultiple(d: int, k: int)
    requires -d < d * k < d
    ensures k == 0
  {
    assert k >= 1 ==> d * k >= d;
    assert k <= -1 ==> d * k <= -d;
  }

  // The byte in front of k others weighs 256^k.
  lemma {:induction false} PlaceValues(n: nat, width: nat, i: nat)
    requires i < width
    ensures BigEndian(n, width)[i] == n / Power256(width - 1 - i) % 256
  {
    if i < width - 1 {
      PlaceValues(n / 256, width - 1, i);
      Quotients(n, Power256(width - 2 - i));
    }
  }

  // Bytes are read as the number they spell.
  lemma {:induction false} BytesRoundTrip(b: seq<byte>)
    ensures BigEndian(FromBigEndian(b), |b|) == b
  {
    if b != [] {
      var rest, last := b[..|b| - 1], b[|b| - 1];
      BytesRoundTrip(rest);
      assert (FromBigEndian(rest) * 256 + last) / 256 == FromBigEndian(rest);
      assert b == rest + [last];
    }
  }

  lemma Limits()
    ensures Power256(4) == 0x1_0000_0000 && Power256(8) == 0x1_0000_0000_0000_0000
  {
    assert Power256(2) == 0x1_0000;
    assert Power256(6) == 0x1_0000_0000_0000;
  }
}
