/** The restore hashcash: how the preimage is laid out, and what its difficulty metric measures. */
module Hashcash {
  import opened Machine

  type Byte = b | 0 <= b < 256

  const SEPARATOR: Byte := 0x1f
  /** ASCII of the domain tag "smirk-restore-pow-v1". */
  const DOMAIN: seq<Byte> :=
    [0x73, 0x6d, 0x69, 0x72, 0x6b, 0x2d, 0x72, 0x65, 0x73, 0x74,
     0x6f, 0x72, 0x65, 0x2d, 0x70, 0x6f, 0x77, 0x2d, 0x76, 0x31]

  /** `n` in `k` little-endian bytes. */
  function LittleEndian(n: nat, k: nat): (bytes: seq<Byte>)
    ensures |bytes| == k
  {
    if k == 0 then [] else [n % 256] + LittleEndian(n / 256, k - 1)
  }

  function Pow2(n: nat): (p: nat)
    ensures p > 0
  {
    if n == 0 then 1 else 2 * Pow2(n - 1)
  }

  // ---------------------------------------------------------------- the preimage

  function Preimage(asset: seq<Byte>, address: seq<Byte>, startHeight: nat): seq<Byte> {
    DOMAIN + [SEPARATOR] + asset + [SEPARATOR] + address + [SEPARATOR] + LittleEndian(startHeight, 8)
  }

  /** Appends the parts to one buffer. */
  method ChallengeInput(asset: seq<Byte>, address: seq<Byte>, startHeight: nat) returns (v: seq<Byte>)
    requires startHeight <= U64_MAX
    ensures v == Preimage(asset, address, startHeight)
    ensures |v| == |asset| + |address| + 31
  {
    v := DOMAIN;
    v := v + [SEPARATOR];
    v := v + asset;
    v := v + [SEPARATOR];
    v := v + address;
    v := v + [SEPARATOR];
    v := v + LittleEndian(startHeight, 8);
  }

  lemma {:induction false} LittleEndianInjective(a: nat, b: nat, k: nat)
    requires a < Pow2(8 * k) && b < Pow2(8 * k)
    requires LittleEndian(a, k) == LittleEndian(b, k)
    ensures a == b
  {
    if k > 0 {
      assert LittleEndian(a, k)[1..] == LittleEndian(a / 256, k - 1);
      assert LittleEndian(b, k)[1..] == LittleEndian(b / 256, k - 1);
      assert LittleEndian(a, k)[0] == a % 256 && LittleEndian(b, k)[0] == b % 256;
      PowSplit(8, 8 * (k - 1));
      Pow8();
      LittleEndianInjective(a / 256, b / 256, k - 1);
    }
  }

  lemma Pow8()
    ensures Pow2(8) == 256
  {
    assert Pow2(4) == 16;
  }

  lemma Pow64()
    ensures Pow2(64) == U64_MAX + 1
  {
    Pow8();
    PowSplit(8, 8);
    PowSplit(16, 16);
    PowSplit(32, 32);
  }

  lemma PowSplit(a: nat, b: nat)
    ensures Pow2(a + b) == Pow2(a) * Pow2(b)
  {
    if a > 0 {
      PowSplit(a - 1, b);
      assert Pow2(a) * Pow2(b) == 2 * (Pow2(a - 1) * Pow2(b));
    }
  }

  /** The variable part of the preimage. */
  function Body(asset: seq<Byte>, address: seq<Byte>): seq<Byte> {
    asset + [SEPARATOR] + address
  }

  lemma PreimageParts(asset: seq<Byte>, address: seq<Byte>, h: nat)
    ensures var v := Preimage(asset, address, h); var n := |v|;
      && n == |asset| + |address| + 31
      && v[21..n - 9] == Body(asset, address)
      && v[n - 8..] == LittleEndian(h, 8)
  {
    assert Preimage(asset, address, h) == (DOMAIN + [SEPARATOR]) + Body(asset, address)
      + ([SEPARATOR] + LittleEndian(h, 8));
  }

  lemma {:induction false} BodyInjective(a: seq<Byte>, x: seq<Byte>, b: seq<Byte>, y: seq<Byte>)
    requires SEPARATOR !in a && SEPARATOR !in b
    requires Body(a, x) == Body(b, y)
    ensures a == b && x == y
  {
    assert Body(a, x)[0] == if a == [] then SEPARATOR else a[0];
    assert Body(b, y)[0] == if b == [] then SEPARATOR else b[0];
    if a == [] {
      assert x == Body(a, x)[1..] && y == Body(b, y)[1..];
    } else {
      assert Body(a[1..], x) == Body(a, x)[1..] && Body(b[1..], y) == Body(b, y)[1..];
      BodyInjective(a[1..], x, b[1..], y);
      assert a == [a[0]] + a[1..] && b == [b[0]] + b[1..];
    }
  }

  /** The preimage pins the work to one restore: it is injective in asset, address and start height
      whenever the assets are free of the separator; the address may contain anything. */
  lemma PreimageInjective(a: seq<Byte>, x: seq<Byte>, h: nat, b: seq<Byte>, y: seq<Byte>, g: nat)
    requires SEPARATOR !in a && SEPARATOR !in b && h <= U64_MAX && g <= U64_MAX
    requires Preimage(a, x, h) == Preimage(b, y, g)
    ensures a == b && x == y && h == g
  {
    PreimageParts(a, x, h);
    PreimageParts(b, y, g);
    BodyInjective(a, x, b, y);
    Pow64();
    LittleEndianInjective(h, g, 8);
  }

  /** What is hashed: the preimage, then the nonce. */
  function Hashed(asset: seq<Byte>, address: seq<Byte>, h: nat, nonce: nat): seq<Byte> {
    Preimage(asset, address, h) + LittleEndian(nonce, 8)
  }

  /** Nor can a nonce be moved to another restore. */
  lemma HashedInjective(a: seq<Byte>, x: seq<Byte>, h: nat, n: nat, b: seq<Byte>, y: seq<Byte>, g: nat, m: nat)
    requires SEPARATOR !in a && SEPARATOR !in b && h <= U64_MAX && g <= U64_MAX && n <= U64_MAX && m <= U64_MAX
    requires Hashed(a, x, h, n) == Hashed(b, y, g, m)
    ensures a == b && x == y && h == g && n == m
  {
    var v, w := Hashed(a, x, h, n), Hashed(b, y, g, m);
    var k := |v| - 8;
    assert v[..k] == Preimage(a, x, h) && w[..k] == Preimage(b, y, g);
    assert v[k..] == LittleEndian(n, 8) && w[k..] == LittleEndian(m, 8);
    PreimageInjective(a, x, h, b, y, g);
    Pow64();
    LittleEndianInjective(n, m, 8);
  }

  /** The condition on the asset is needed: every asset that contains the separator shares its
      preimage with a shorter asset. */
  lemma SeparatorInAssetCollides(a: seq<Byte>, x: seq<Byte>, h: nat) returns (b: seq<Byte>, y: seq<Byte>)
    requires SEPARATOR in a
    ensures b != a && Preimage(b, y, h) == Preimage(a, x, h)
  {
    var i :| 0 <= i < |a| && a[i] == SEPARATOR;
    b, y := a[..i], a[i + 1..] + [SEPARATOR] + x;
    assert a == a[..i] + [SEPARATOR] + a[i + 1..];
    assert Body(b, y) == Body(a, x);
    assert Preimage(a, x, h) == DOMAIN + [SEPARATOR] + Body(a, x) + [SEPARATOR] + LittleEndian(h, 8);
    assert Preimage(b, y, h) == DOMAIN + [SEPARATOR] + Body(b, y) + [SEPARATOR] + LittleEndian(h, 8);
  }

  // ---------------------------------------------------------------- the difficulty metric

  /** `u8::leading_zeros`. */
  function ByteZeros(b: Byte): nat {
    if b == 0 then 8 else if b < 2 then 7 else if b < 4 then 6 else if b < 8 then 5
    else if b < 16 then 4 else if b < 32 then 3 else if b < 64 then 2 else if b < 128 then 1 else 0
  }

  function ZeroBits(digest: seq<Byte>): nat {
    if digest == [] then 0
    else if digest[0] == 0 then 8 + ZeroBits(digest[1..])
    else ByteZeros(digest[0])
  }

  /** The counting loop with its early exit. */
  method LeadingZeroBits(digest: seq<Byte>) returns (n: nat)
    ensures n == ZeroBits(digest)
  {
    n := 0;
    var i := 0;
    while i < |digest|
      invariant 0 <= i <= |digest|
      invariant ZeroBits(digest) == n + ZeroBits(digest[i..])
    {
      if digest[i] == 0 {
        n := n + 8;
      } else {
        n := n + ByteZeros(digest[i]);
        break;
      }
      i := i + 1;
    }
  }

  /** The digest read as one big-endian number. */
  function BigEndian(digest: seq<Byte>): nat {
    if digest == [] then 0 else digest[0] * Pow2(8 * (|digest| - 1)) + BigEndian(digest[1..])
  }

  /** A leading digit between `lo` and `hi` bounds the whole number. */
  lemma Between(lo: nat, d: nat, hi: nat, p: nat, tail: nat)
    requires lo <= d < hi && tail < p
    ensures lo * p <= d * p + tail < hi * p
  {
    assert lo * p <= d * p;
    assert (d + 1) * p <= hi * p;
  }

  lemma {:induction false} BigEndianBound(digest: seq<Byte>)
    ensures BigEndian(digest) < Pow2(8 * |digest|)
  {
    if digest != [] {
      BigEndianBound(digest[1..]);
      var m := 8 * (|digest| - 1);
      PowSplit(8, m);
      Pow8();
      Between(0, digest[0], 256, Pow2(m), BigEndian(digest[1..]));
      assert 8 + m == 8 * |digest|;
    }
  }

  lemma PowMonotone(a: nat, b: nat)
    requires a <= b
    ensures Pow2(a) <= Pow2(b)
  {
  }

  lemma ByteBounds(b: Byte)
    requires b != 0
    ensures var z := ByteZeros(b); z <= 7 && Pow2(7 - z) <= b < Pow2(8 - z)
  {
    assert Pow2(1) == 2 && Pow2(2) == 4 && Pow2(3) == 8 && Pow2(4) == 16;
    assert Pow2(5) == 32 && Pow2(6) == 64 && Pow2(7) == 128 && Pow2(8) == 256;
  }

  /** A digest whose first byte is not zero lies between two powers set by that byte. */
  lemma FirstByteDecides(digest: seq<Byte>)
    requires digest != [] && digest[0] != 0
    ensures var n, z := 8 * |digest|, ByteZeros(digest[0]);
      z <= 7 && Pow2(n - z - 1) <= BigEndian(digest) < Pow2(n - z)
  {
    var z, m := ByteZeros(digest[0]), 8 * (|digest| - 1);
    ByteBounds(digest[0]);
    BigEndianBound(digest[1..]);
    PowSplit(7 - z, m);
    PowSplit(8 - z, m);
    Between(Pow2(7 - z), digest[0], Pow2(8 - z), Pow2(m), BigEndian(digest[1..]));
    assert 7 - z + m == 8 * |digest| - z - 1 && 8 - z + m == 8 * |digest| - z;
  }

  /** The metric measures the digest as a number: at least `k` leading zero bits iff the big-endian
      value is below `2^(8 len - k)`, for every length and every `k` up to the whole digest. */
  lemma {:induction false} DifficultyExactly(digest: seq<Byte>, k: nat)
    requires k <= 8 * |digest|
    ensures ZeroBits(digest) >= k <==> BigEndian(digest) < Pow2(8 * |digest| - k)
  {
    if digest != [] {
      var n := 8 * |digest|;
      if digest[0] == 0 {
        if k <= 8 {
          BigEndianBound(digest[1..]);
          PowMonotone(n - 8, n - k);
        } else {
          DifficultyExactly(digest[1..], k - 8);
        }
      } else {
        FirstByteDecides(digest);
        var z := ByteZeros(digest[0]);
        if k <= z {
          PowMonotone(n - z, n - k);
        } else {
          PowMonotone(n - k, n - z - 1);
        }
      }
    }
  }

  // ---------------------------------------------------------------- verification

  /** Enough work for `required` bits; the hash is a parameter. */
  method Verify(hash: seq<Byte> -> seq<Byte>, asset: seq<Byte>, address: seq<Byte>, h: nat, nonce: nat, required: nat)
    returns (ok: bool)
    requires h <= U64_MAX && nonce <= U64_MAX
    ensures ok == WorkDone(hash, asset, address, h, nonce, required)
  {
    if required == 0 {
      return true;
    }
    var input := ChallengeInput(asset, address, h);
    var n := LeadingZeroBits(hash(input + LittleEndian(nonce, 8)));
    return n >= required;
  }

  predicate WorkDone(hash: seq<Byte> -> seq<Byte>, asset: seq<Byte>, address: seq<Byte>, h: nat, nonce: nat,
                     required: nat) {
    required == 0 || ZeroBits(hash(Hashed(asset, address, h, nonce))) >= required
  }

  /** For a 32-byte hash, the work is done exactly when the digest is below the target; no digest
      meets more than 256 bits. */
  lemma WorkExactly(hash: seq<Byte> -> seq<Byte>, asset: seq<Byte>, address: seq<Byte>, h: nat, nonce: nat,
                    required: nat)
    requires |hash(Hashed(asset, address, h, nonce))| == 32
    ensures required <= 256 ==>
      (WorkDone(hash, asset, address, h, nonce, required)
       <==> BigEndian(hash(Hashed(asset, address, h, nonce))) < Pow2(256 - required))
    ensures required > 256 ==> !WorkDone(hash, asset, address, h, nonce, required)
  {
    var digest := hash(Hashed(asset, address, h, nonce));
    if required <= 256 {
      DifficultyExactly(digest, required);
      BigEndianBound(digest);
    }
    AtMostAllBits(digest);
  }

  lemma AtMostAllBits(digest: seq<Byte>)
    ensures ZeroBits(digest) <= 8 * |digest|
  {
  }

  // ---------------------------------------------------------------- the layout, byte by byte

  /** The number whose `i`-th byte counts 256 to the `i`. */
  function LittleValue(bytes: seq<Byte>): nat {
    if bytes == [] then 0 else bytes[0] + 256 * LittleValue(bytes[1..])
  }

  /** The bytes written are those of the number, the low one first; what does not fit is cut off. */
  lemma {:induction false} LittleEndianExactly(n: nat, k: nat)
    requires n < Pow2(8 * k)
    ensures LittleValue(LittleEndian(n, k)) == n
  {
    if k > 0 {
      PowSplit(8, 8 * (k - 1));
      Pow8();
      LittleEndianExactly(n / 256, k - 1);
      assert LittleEndian(n, k)[1..] == LittleEndian(n / 256, k - 1);
    }
  }

  /** Byte `i` is the character of the domain tag. */
  lemma DomainIsTag(i: nat)
    requires i < 20
    ensures |DOMAIN| == |"smirk-restore-pow-v1"| == 20
    ensures DOMAIN[i] == "smirk-restore-pow-v1"[i] as int
  {
    assert i in {0, 1, 2, 3, 4, 5, 6, 7, 8, 9, 10, 11, 12, 13, 14, 15, 16, 17, 18, 19};
  }

  /** Where each part of the preimage stands. */
  lemma PreimageLayout(asset: seq<Byte>, address: seq<Byte>, h: nat)
    requires h <= 0xffff_ffff_ffff_ffff
    ensures var v, a, b := Preimage(asset, address, h), 21 + |asset|, 22 + |asset| + |address|;
      && |v| == b + 9
      && v[..20] == DOMAIN && v[20] == 31 && v[21..a] == asset && v[a] == 31
      && v[a + 1..b] == address && v[b] == 31
      && LittleValue(v[b + 1..]) == h
  {
    var v, b := Preimage(asset, address, h), 22 + |asset| + |address|;
    assert v[b + 1..] == LittleEndian(h, 8);
    Pow64();
    LittleEndianExactly(h, 8);
  }

  /** The hashed bytes are the preimage and then the nonce in eight bytes. */
  lemma HashedLayout(asset: seq<Byte>, address: seq<Byte>, h: nat, nonce: nat)
    requires nonce <= 0xffff_ffff_ffff_ffff
    ensures var v, n := Hashed(asset, address, h, nonce), |Preimage(asset, address, h)|;
      |v| == n + 8 && v[..n] == Preimage(asset, address, h) && LittleValue(v[n..]) == nonce
  {
    var v, n := Hashed(asset, address, h, nonce), |Preimage(asset, address, h)|;
    assert v[n..] == LittleEndian(nonce, 8);
    Pow64();
    LittleEndianExactly(nonce, 8);
  }
}
