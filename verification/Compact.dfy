/** The compact form of 256-bit integers used for proof-of-work targets (src/arith_uint256.cpp): a size in
    bytes and the three most significant bytes, with a sign bit. */
module Compact {
  import opened Base
  import opened Powers
  import opened Arith
  import opened ArithShift

  const WIDTH: nat := 8
  const SIGN: nat := 0x80_0000
  const SIZE_UNIT: nat := 0x100_0000

  /** 256 to the k. */
  function B(k: nat): (r: nat)
    ensures r > 0
  {
    Pow2(8 * k)
  }

  lemma BAdd(j: nat, k: nat)
    ensures B(j + k) == B(j) * B(k)
  {
    Pow2Add(8 * j, 8 * k);
  }

  lemma BSmall()
    ensures B(0) == 1 && B(1) == 0x100 && B(2) == 0x1_0000 && B(3) == SIZE_UNIT
  {
    assert Pow2(8) == 256;
    Pow2Add(8, 8);
    Pow2Add(16, 8);
  }

  lemma BMono(j: nat, k: nat)
    requires j <= k
    ensures B(j) <= B(k)
  {
    Pow2Mono(8 * j, 8 * k);
  }

  // ---------- decoding ----------

  function Size(c: nat): nat {
    c / SIZE_UNIT
  }

  function Mantissa(c: nat): nat {
    c % SIGN
  }

  predicate SignBit(c: nat) {
    c / SIGN % 2 == 1
  }

  function Scale(n: nat, k: nat): nat {
    n * B(k)
  }

  function Unscale(n: nat, k: nat): nat {
    DivMod(n, B(k));
    n / B(k)
  }

  /** The integer that a word stands for, however large. */
  function EncodedValue(c: nat): nat {
    if Size(c) <= 3 then Unscale(Mantissa(c), 3 - Size(c)) else Scale(Mantissa(c), Size(c) - 3)
  }

  predicate OverflowTest(word: nat, size: nat) {
    word != 0 && (size > 34 || (word > 0xff && size > 33) || (word > 0xffff && size > 32))
  }

  /** The test flags overflow exactly if the encoded value does not fit in 256 bits. */
  lemma OverflowIff(word: nat, size: nat)
    requires word < SIGN && size > 3
    ensures OverflowTest(word, size) <==> Scale(word, size - 3) >= B(32)
  {
    hide B;
    BSmall();
    if word == 0 {
      assert Scale(word, size - 3) == 0;
    } else if size > 34 {
      BMono(32, size - 3);
      TimesMono(1, word, B(size - 3), B(size - 3));
    } else if size == 34 {
      BAdd(1, 31);
      Against(word, 0x100, B(31));
    } else if size == 33 {
      BAdd(2, 30);
      Against(word, 0x1_0000, B(30));
    } else {
      BAdd(3, 29);
      BMono(size - 3, 29);
      TimesMono(word, word, B(size - 3), B(29));
      Against(word, SIZE_UNIT, B(29));
    }
  }

  lemma Against(word: nat, limit: nat, b: nat)
    requires b > 0
    ensures word * b >= limit * b <==> word >= limit
  {
    assert word >= limit ==> word * b >= limit * b;
    assert word + 1 <= limit ==> (word + 1) * b <= limit * b;
    Distribute(word, 1, b);
  }

  // ---------- encoding ----------

  /** k bytes are needed for n, and no fewer. */
  ghost predicate IsByteLength(n: nat, k: nat) {
    n < B(k) && (k > 0 ==> n >= B(k - 1))
  }

  lemma BytesOfBits(n: nat, bits: nat)
    requires IsBitLength(n, bits)
    ensures IsByteLength(n, (bits + 7) / 8)
  {
    var k := (bits + 7) / 8;
    Pow2Mono(bits, 8 * k);
    if k > 0 {
      Pow2Mono(8 * (k - 1), bits - 1);
    }
  }

  function Leading(n: nat, k: nat): nat {
    if k <= 3 then Scale(n, 3 - k) else Unscale(n, k - 3)
  }

  function Word(m: nat, k: nat): nat {
    m + k * SIZE_UNIT
  }

  /** If the sign bit would be taken, one byte less is kept. */
  function CompactOf(n: nat, k: nat): nat {
    var m := Leading(n, k);
    if m >= SIGN then Word(m / 256, k + 1) else Word(m, k)
  }

  lemma LeadingBound(n: nat, k: nat)
    requires IsByteLength(n, k)
    ensures Leading(n, k) < SIZE_UNIT
  {
    hide B;
    BSmall();
    if k <= 3 {
      BAdd(k, 3 - k);
      TimesStrict2(n, B(k), B(3 - k));
    } else {
      BAdd(3, k - 3);
      DivMod(n, B(k - 3));
      Against(Unscale(n, k - 3), B(3), B(k - 3));
    }
  }

  lemma WordParts(m: nat, k: nat)
    requires m < SIGN
    ensures Size(Word(m, k)) == k && Mantissa(Word(m, k)) == m && !SignBit(Word(m, k))
  {
    Quotient(Word(m, k), SIZE_UNIT, k, m);
    Quotient(Word(m, k), SIGN, 2 * k, m);
    ModUnique(m, 2 * k, Word(m, k), SIGN);
  }

  /** The bytes that are dropped. */
  function Dropped(c: nat): nat {
    if Size(c) <= 3 then 0 else Size(c) - 3
  }

  function Truncated(n: nat, k: nat): nat {
    Scale(Unscale(n, k), k)
  }

  lemma UnscaleOfScale(n: nat, k: nat)
    ensures Unscale(Scale(n, k), k) == n
  {
    hide B;
    Quotient(n * B(k), B(k), n, 0);
  }

  lemma UnscaleTwice(n: nat, k: nat)
    ensures Unscale(n, k) / 256 == Unscale(n, k + 1)
  {
    BSmall();
    BAdd(k, 1);
    hide B;
    DivMod(n, B(k));
    var q, r := n / B(k), n % B(k);
    var q2, r2 := q / 256, q % 256;
    NestedDivision(n, B(k), q, r, q2, r2);
    Quotient(n, B(k) * 256, q2, r2 * B(k) + r);
  }

  lemma NestedDivision(n: nat, b: nat, q: nat, r: nat, q2: nat, r2: nat)
    requires n == q * b + r && r < b && q == q2 * 256 + r2 && r2 < 256
    ensures n == q2 * (b * 256) + (r2 * b + r) && r2 * b + r < b * 256
  {
    Distribute(q2 * 256, r2, b);
    assert q2 * 256 * b == q2 * (b * 256);
    TimesMono(r2 + 1, 256, b, b);
    Distribute(r2, 1, b);
  }

  lemma ScaleTwice(n: nat, k: nat)
    ensures Scale(n, k + 1) == Scale(n, k) * 256 == Scale(n * 256, k)
  {
    BSmall();
    BAdd(k, 1);
    hide B;
    assert n * (B(k) * 256) == n * B(k) * 256 == n * 256 * B(k);
  }

  /** Decoding the compact form of n gives n with its low bytes cut off: only what the three bytes cannot hold. */
  lemma DecodeOfEncode(n: nat, k: nat)
    requires IsByteLength(n, k)
    ensures var c := CompactOf(n, k);
      && EncodedValue(c) == Truncated(n, Dropped(c)) && !SignBit(c)
      && Dropped(c) == (if k <= 2 then 0 else if Leading(n, k) >= SIGN then k - 2 else k - 3)
  {
    hide B, Scale, Unscale;
    LeadingBound(n, k);
    var m := Leading(n, k);
    TruncateNothing(n);
    if m < SIGN {
      WordParts(m, k);
      if k <= 3 {
        UnscaleOfScale(n, 3 - k);
      }
    } else {
      WordParts(m / 256, k + 1);
      if k <= 2 {
        ScaleTwice(n, 2 - k);
        UnscaleOfScale(n, 2 - k);
      } else if k == 3 {
        UnscaleTwice(n, 0);
      } else {
        UnscaleTwice(n, k - 3);
      }
    }
  }

  lemma TruncateNothing(n: nat)
    ensures Scale(n, 0) == n && Unscale(n, 0) == n && Truncated(n, 0) == n
  {
    BSmall();
  }

  lemma TruncatedBounds(n: nat, d: nat, k: nat)
    requires IsByteLength(n, k) && d < k
    ensures Truncated(n, d) <= n && IsByteLength(Truncated(n, d), k)
  {
    hide B;
    BAdd(k - 1 - d, d);
    var q := Unscale(n, d);
    DivMod(n, B(d));
    Distribute(q, 1, B(d));
    NotBelow(q, B(k - 1 - d), B(d), n);
  }

  lemma NotBelow(q: nat, limit: nat, b: nat, n: nat)
    requires b > 0 && limit * b <= n < q * b + b
    ensures q * b >= limit * b
  {
    Distribute(q, 1, b);
    Against(limit, q + 1, b);
    TimesMono(limit, q, b, b);
  }

  /** Encoding once more changes nothing. */
  lemma EncodeOfDecode(n: nat, k: nat)
    requires IsByteLength(n, k)
    ensures var v := EncodedValue(CompactOf(n, k)); IsByteLength(v, k) && CompactOf(v, k) == CompactOf(n, k)
  {
    DecodeOfEncode(n, k);
    hide B, Scale, Unscale, IsByteLength, EncodedValue;
    var c, m := CompactOf(n, k), Leading(n, k);
    var d := Dropped(c);
    TruncateNothing(n);
    if d > 0 {
      TruncatedBounds(n, d, k);
      if m < SIGN {
        UnscaleOfScale(Unscale(n, d), d);
      } else if k == 3 {
        UnscaleTwice(n, 0);
        ScaleTwice(Unscale(n, 1), 0);
        TruncateNothing(Unscale(n, 1));
        TruncateNothing(Truncated(n, 1));
        TopBitStays(m);
      } else {
        UnscaleTwice(n, k - 3);
        ScaleTwice(Unscale(n, d), k - 3);
        UnscaleOfScale(Unscale(n, d) * 256, k - 3);
        TopBitStays(m);
      }
    }
  }

  lemma TopBitStays(m: nat)
    requires m >= SIGN
    ensures m / 256 * 256 >= SIGN
  {
  }

  // ---------- the methods ----------

  lemma Modulus()
    ensures P(WIDTH) == B(32)
  {
    Pow2P(WIDTH, 0);
    BSmall();
  }

  method SetWord(p: array<nat>, x: nat)
    requires p.Length == WIDTH && x < LIMB
    modifies p
    ensures Limbs(p[..]) && Val(p[..]) == x
  {
    hide Val, P;
    Clear(p);
    ghost var s := p[..];
    ZeroVal(s);
    p[0] := x;
    assert p[..] == s[0 := x];
    ValUpdate(s, 0, x);
    ValEmpty();
  }

  /** Decodes a word: the value modulo 2^256, whether it is negative, and whether it does not fit. */
  method SetCompact(p: array<nat>, c: nat) returns (negative: bool, overflow: bool)
    requires p.Length == WIDTH && c < LIMB
    modifies p
    ensures Limbs(p[..]) && Val(p[..]) == EncodedValue(c) % P(WIDTH)
    ensures negative <==> SignBit(c) && (if Size(c) <= 3 then EncodedValue(c) != 0 else Mantissa(c) != 0)
    ensures overflow <==> EncodedValue(c) >= P(WIDTH)
  {
    hide Val, P, B, Unscale;
    var size, word := Size(c), Mantissa(c);
    Modulus();
    if size <= 3 {
      word := ShiftWord(word, 3 - size);
      SetWord(p, word);
      WordFits(word);
    } else {
      SetWord(p, word);
      ShiftLeft(p, 8 * (size - 3));
      ScaleIs(word, size - 3);
      OverflowIff(word, size);
    }
    negative := word != 0 && SignBit(c);
    overflow := OverflowTest(word, size);
  }

  method ShiftWord(word: nat, k: nat) returns (r: nat)
    ensures r == Unscale(word, k) && r <= word
  {
    DivMod(word, B(k));
    TimesMono(1, B(k), word / B(k), word / B(k));
    r := word / B(k);
  }

  lemma WordFits(word: nat)
    requires word < SIGN
    ensures word < B(32) && word % B(32) == word && word % P(WIDTH) == word && word < P(WIDTH)
  {
    BSmall();
    BMono(3, 32);
    Modulus();
    ModUnique(word, 0, word, B(32));
  }

  lemma ScaleIs(n: nat, k: nat)
    ensures Scale(n, k) == n * Pow2(8 * k)
  {
  }

  method GetLow64(p: array<nat>) returns (r: nat)
    requires p.Length == WIDTH && Limbs(p[..])
    ensures r == p[0] + p[1] * LIMB && (Val(p[..]) < LIMB ==> r == Val(p[..]))
  {
    r := p[0] + p[1] * LIMB;
    LowLimb(p[..]);
  }

  lemma LowLimb(s: seq<nat>)
    requires |s| == WIDTH && Limbs(s)
    ensures Val(s) < LIMB ==> Val(s) == s[0] && s[1] == 0
  {
    hide Val, P;
    ValSplit(s, 1);
    ValSnoc(s, 0);
    ValEmpty();
    PNext(0);
    assert Val(s[..1]) == s[0] by { assert s[..0] == []; }
    var high := Val(s[1..]);
    assert high >= 1 ==> LIMB * high >= LIMB;
    ValSnoc(s[1..], 0);
    ValSplit(s[1..], 1);
    assert s[1..][..0] == [] && s[1..][0] == s[1];
  }

  /** The three most significant of `size` bytes. */
  method LeadingBytes(p: array<nat>, size: nat) returns (m: nat)
    requires p.Length == WIDTH && Limbs(p[..]) && IsByteLength(Val(p[..]), size)
    ensures m == Leading(Val(p[..]), size)
  {
    hide Val, P, B, Scale, Unscale, IsByteLength, Leading, Pow2;
    ghost var n := Val(p[..]);
    LeadingBound(n, size);
    LeadingIs(n, size);
    if size <= 3 {
      SmallValue(n, size);
      var low := GetLow64(p);
      m := low * Pow2(8 * (3 - size));
    } else {
      var bn := Copy(p);
      ShiftRight(bn, 8 * (size - 3));
      m := GetLow64(bn);
    }
  }

  /** The compact form of the value in the limbs, with a sign bit if asked for and there is anything to sign. */
  ghost predicate IsCompactForm(n: nat, negative: bool, c: nat, k: nat) {
    && k <= 33 && IsByteLength(n, k)
    && c == CompactOf(n, k) + (if negative && Mantissa(CompactOf(n, k)) != 0 then SIGN else 0)
  }

  method GetCompact(p: array<nat>, negative: bool) returns (c: nat)
    requires p.Length == WIDTH && Limbs(p[..])
    ensures exists k :: IsCompactForm(Val(p[..]), negative, c, k)
  {
    hide Val, P, B, IsByteLength, Leading, Mantissa, Size, SignBit;
    ghost var n := Val(p[..]);
    var bits := Bits(p);
    var size: nat := (bits + 7) / 8;
    BytesOfBits(n, bits);
    ghost var k := size;
    LeadingBound(n, size);
    c := LeadingBytes(p, size);
    if c / SIGN % 2 == 1 {
      c := c / 256;
      size := size + 1;
    }
    assert c < SIGN && size < 256;
    WordParts(c, size);
    c := c + size * SIZE_UNIT + (if negative && c != 0 then SIGN else 0);
    assert IsCompactForm(n, negative, c, k);
  }

  lemma LeadingIs(n: nat, k: nat)
    ensures k <= 3 ==> Leading(n, k) == n * Pow2(8 * (3 - k))
    ensures k > 3 ==> Leading(n, k) == n / Pow2(8 * (k - 3))
  {
  }

  lemma SmallValue(n: nat, k: nat)
    requires IsByteLength(n, k) && k <= 3
    ensures n < LIMB
  {
    BSmall();
    BMono(k, 3);
  }

  /** Encoding and decoding a target on the limbs: the value keeps its leading bytes, nothing is flagged, and
      encoding again gives the same word. */
  method RoundTrip(p: array<nat>) returns (c: nat, negative: bool, overflow: bool, again: nat)
    requires p.Length == WIDTH && Limbs(p[..])
    modifies p
    ensures Limbs(p[..]) && Val(p[..]) == Truncated(Val(old(p[..])), Dropped(c))
    ensures !negative && !overflow && again == c
  {
    hide Val, P, B, IsByteLength, CompactOf, EncodedValue, Truncated, Mantissa, Size;
    ghost var n := Val(p[..]);
    ValBound(p[..]);
    c := GetCompact(p, false);
    ghost var k :| IsCompactForm(n, false, c, k);
    DecodeOfEncode(n, k);
    CompactSmall(n, k);
    negative, overflow := SetCompact(p, c);
    TruncatedSmall(n, Dropped(c));
    ModUnique(EncodedValue(c), 0, EncodedValue(c), P(WIDTH));
    EncodeOfDecode(n, k);
    again := GetCompact(p, false);
    ghost var k' :| IsCompactForm(Val(p[..]), false, again, k');
    SameLength(Val(p[..]), k, k');
  }

  lemma CompactSmall(n: nat, k: nat)
    requires IsByteLength(n, k) && k <= 33
    ensures CompactOf(n, k) < LIMB
  {
    LeadingBound(n, k);
  }

  lemma TruncatedSmall(n: nat, d: nat)
    ensures Truncated(n, d) <= n
  {
    DivMod(n, B(d));
  }

  lemma SameLength(n: nat, j: nat, k: nat)
    requires IsByteLength(n, j) && IsByteLength(n, k)
    ensures j == k
  {
    if j < k {
      BMono(j, k - 1);
    } else if k < j {
      BMono(k, j - 1);
    }
  }
}
