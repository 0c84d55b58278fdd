/** Variable-length integers, compressed amounts and compressed scripts (src/serialize.h, src/compressor.cpp,
    src/compressor.h). A stream is what is left of it to read; reading past its end gives None. */
module Compressor {
  import opened Base
  import opened Coins
  import opened Powers

  type Stream = seq<nat>

  // ---------- variable-length integers ----------

  /** All bytes but the last have bit 128 set. */
  function VarIntHigh(n: nat): (r: Stream)
    decreases n
  {
    if n <= 0x7F then [n + 0x80] else VarIntHigh(n / 128 - 1) + [n % 128 + 0x80]
  }

  /** A signed argument that is negative is cut to its low 7 bits. */
  function VarInt(n: int): (r: Stream) {
    if n <= 0x7F then [n % 128] else VarIntHigh(n / 128 - 1) + [n % 128]
  }

  function ReadVarIntFrom(s: Stream, n: nat): Option<(nat, Stream)>
    decreases |s|
  {
    if s == [] then None
    else if s[0] >= 0x80 then ReadVarIntFrom(s[1..], n * 128 + s[0] % 128 + 1)
    else Some((n * 128 + s[0], s[1..]))
  }

  function ReadVarInt(s: Stream): Option<(nat, Stream)> {
    ReadVarIntFrom(s, 0)
  }

  lemma {:induction false} VarIntHighRead(n: nat, rest: Stream)
    ensures ReadVarIntFrom(VarIntHigh(n) + rest, 0) == ReadVarIntFrom(rest, n + 1)
    decreases n
  {
    if n <= 0x7F {
      assert (VarIntHigh(n) + rest)[1..] == rest;
    } else {
      var b := n % 128 + 0x80;
      var high := VarIntHigh(n / 128 - 1);
      assert VarIntHigh(n) + rest == high + ([b] + rest);
      VarIntHighRead(n / 128 - 1, [b] + rest);
      assert ([b] + rest)[1..] == rest;
    }
  }

  /** An integer is read back, and nothing after it is touched, exactly if it is not negative. */
  lemma VarIntIff(n: int, rest: Stream)
    ensures ReadVarInt(VarInt(n) + rest) == Some((if n < 0 then n % 128 else n, rest))
    ensures ReadVarInt(VarInt(n) + rest) == Some((n, rest)) <==> n >= 0
  {
    if n <= 0x7F {
      assert (VarInt(n) + rest)[1..] == rest;
    } else {
      var b := n % 128;
      assert VarInt(n) + rest == VarIntHigh(n / 128 - 1) + ([b] + rest);
      VarIntHighRead(n / 128 - 1, [b] + rest);
      assert ([b] + rest)[1..] == rest;
    }
  }

  /** Fills a buffer from the last byte backwards, and writes it out in reverse. */
  method WriteVarInt(n: int) returns (r: Stream)
    ensures r == VarInt(n)
  {
    r := [n % 128];
    var m := n;
    while m > 0x7F
      invariant VarInt(n) == if m <= 0x7F then r else VarIntHigh(m / 128 - 1) + r
      decreases m
    {
      m := m / 128 - 1;
      ghost var tail := r;
      r := [m % 128 + 0x80] + r;
      assert m > 0x7F ==> VarIntHigh(m) + tail == VarIntHigh(m / 128 - 1) + r;
    }
  }

  method ReadVarIntBytes(s: Stream) returns (r: Option<(nat, Stream)>)
    ensures r == ReadVarInt(s)
  {
    var n: nat, k: nat := 0, 0;
    while k < |s|
      invariant k <= |s| && ReadVarIntFrom(s[k..], n) == ReadVarInt(s)
    {
      assert s[k..][0] == s[k] && s[k..][1..] == s[k + 1..];
      n := n * 128 + s[k] % 128;
      if s[k] < 0x80 {
        return Some((n, s[k + 1..]));
      }
      n := n + 1;
      k := k + 1;
    }
    r := None;
  }

  // ---------- what the bytes mean ----------

  /** All bytes but the last have the high bit set. */
  predicate WellFormed(a: Stream) {
    a != [] && a[|a| - 1] < 128 && forall i :: 0 <= i < |a| - 1 ==> 128 <= a[i] < 256
  }

  /** The sum over i from 1 to k of 128^i * (a[len-i-1] % 128 + 1). */
  function HighSum(a: Stream, k: nat): nat
    requires k < |a|
  {
    if k == 0 then 0 else HighSum(a, k - 1) + Pow(128, k) * (a[|a| - k - 1] % 128 + 1)
  }

  /** The number that a sequence of bytes stands for. */
  function Meaning(a: Stream): nat
    requires a != []
  {
    a[|a| - 1] % 128 + HighSum(a, |a| - 1)
  }

  lemma {:induction false} HighSumShift(h: Stream, x: nat, k: nat)
    requires 1 <= k <= |h|
    ensures HighSum(h + [x], k) == 128 * (h[|h| - 1] % 128 + 1 + HighSum(h, k - 1))
  {
    var a := h + [x];
    assert a[|a| - k - 1] == h[|h| - k];
    if k == 1 {
      assert Pow(128, 1) == 128 * Pow(128, 0) == 128;
    } else {
      HighSumShift(h, x, k - 1);
      PowTimes(k - 1, h[|h| - k] % 128 + 1);
    }
  }

  lemma PowTimes(k: nat, y: nat)
    ensures Pow(128, k + 1) * y == 128 * (Pow(128, k) * y)
  {
  }

  lemma {:induction false} HighMeans(n: nat)
    ensures var h := VarIntHigh(n);
      && h != [] && (forall i :: 0 <= i < |h| ==> 128 <= h[i] < 256)
      && h[|h| - 1] % 128 + 1 + HighSum(h, |h| - 1) == n + 1
    decreases n
  {
    if n > 0x7F {
      var q, r := n / 128, n % 128;
      Digit(n);
      HighMeans(q - 1);
      var g := VarIntHigh(q - 1);
      HighSumShift(g, r + 0x80, |g|);
      assert VarIntHigh(n) == g + [r + 0x80];
      hide VarIntHigh, HighSum;
    } else {
      assert VarIntHigh(n) == [n + 0x80] && HighSum([n + 0x80], 0) == 0;
    }
  }

  lemma Digit(n: nat)
    ensures n == 128 * (n / 128) + n % 128 && (n % 128 + 0x80) % 128 == n % 128 && n % 128 < 128 && (n >= 128 ==> n / 128 >= 1)
  {
  }

  /** A number that is not negative is written as the bytes that stand for it. */
  lemma VarIntMeans(n: nat)
    ensures WellFormed(VarInt(n)) && Meaning(VarInt(n)) == n
  {
    hide VarIntHigh, HighSum, VarInt;
    Digit(n);
    VarIntStep(n);
    if n > 0x7F {
      HighMeans(n / 128 - 1);
      MeaningOfTwo(VarIntHigh(n / 128 - 1), n % 128);
    } else {
      MeaningOfOne(n);
    }
  }

  lemma VarIntStep(n: nat)
    ensures VarInt(n) == if n <= 0x7F then [n] else VarIntHigh(n / 128 - 1) + [n % 128]
  {
    Digit(n);
    hide VarIntHigh;
  }

  lemma MeaningOfOne(r: nat)
    requires r < 128
    ensures Meaning([r]) == r
  {
  }

  /** The last byte appended to the others. */
  lemma MeaningOfTwo(h: Stream, r: nat)
    requires h != [] && r < 128
    ensures Meaning(h + [r]) == r + 128 * (h[|h| - 1] % 128 + 1 + HighSum(h, |h| - 1))
  {
    hide HighSum, Meaning;
    HighSumShift(h, r, |h|);
    var a := h + [r];
    MeaningIs(a, r);
  }

  lemma MeaningIs(a: Stream, r: nat)
    requires a != [] && a[|a| - 1] == r < 128
    ensures Meaning(a) == r + HighSum(a, |a| - 1)
  {
    hide HighSum;
  }

  lemma HighStep(v: nat, x: nat)
    requires 128 <= x < 256
    ensures VarIntHigh(x % 128 + 128 * (v + 1)) == VarIntHigh(v) + [x]
  {
    Horner(v, x % 128);
  }

  lemma {:induction false} HighUnique(h: Stream)
    requires h != [] && forall i :: 0 <= i < |h| ==> 128 <= h[i] < 256
    ensures VarIntHigh(h[|h| - 1] % 128 + HighSum(h, |h| - 1)) == h
    decreases |h|
  {
    var x := h[|h| - 1];
    assert |h| == 1 ==> VarIntHigh(x % 128) == [x] && h == [x];
    hide VarIntHigh;
    if |h| > 1 {
      var g := h[..|h| - 1];
      HighUnique(g);
      HighSumShift(g, x, |g|);
      assert h == g + [x];
      HighStep(g[|g| - 1] % 128 + HighSum(g, |g| - 1), x);
    }
  }

  lemma Horner(v: nat, d: nat)
    requires d < 128
    ensures (d + 128 * (v + 1)) / 128 - 1 == v && (d + 128 * (v + 1)) % 128 == d && d + 128 * (v + 1) > 0x7F
  {
  }

  /** Every number has exactly one form. */
  lemma VarIntUnique(a: Stream)
    requires WellFormed(a)
    ensures VarInt(Meaning(a)) == a
  {
    var x := a[|a| - 1];
    if |a| > 1 {
      var g := a[..|a| - 1];
      HighUnique(g);
      HighSumShift(g, x, |g|);
      assert a == g + [x];
      Horner(g[|g| - 1] % 128 + HighSum(g, |g| - 1), x);
    }
  }

  // ---------- amounts ----------

  function Pow10(e: nat): (r: nat)
    ensures r > 0
  {
    if e == 0 then 1 else 10 * Pow10(e - 1)
  }

  /** Divides by 10 as long as that is exact, at most 9 times. */
  function Strip(n: nat, e: nat): (r: (nat, nat))
    requires n > 0 && e <= 9
    ensures r.0 > 0 && e <= r.1 <= 9 && (r.1 < 9 ==> r.0 % 10 != 0)
    decreases n
  {
    if n % 10 == 0 && e < 9 then Strip(n / 10, e + 1) else (n, e)
  }

  /** A number and the exponent taken out of it, packed into one positive number. */
  function Pack(m: nat, e: nat): (x: nat)
    requires m > 0 && e <= 9 && (e < 9 ==> m % 10 != 0)
  {
    if e < 9 then 1 + (m / 10 * 9 + m % 10 - 1) * 10 + e else 1 + (m - 1) * 10 + 9
  }

  function Unpack(x: nat): (r: (nat, nat))
    requires x > 0
    ensures r.0 > 0 && r.1 <= 9
  {
    var e, y := (x - 1) % 10, (x - 1) / 10;
    (if e < 9 then y / 9 * 10 + y % 9 + 1 else y + 1, e)
  }

  lemma UnpackOfPack(m: nat, e: nat)
    requires m > 0 && e <= 9 && (e < 9 ==> m % 10 != 0)
    ensures Pack(m, e) > 0 && Unpack(Pack(m, e)) == (m, e)
  {
    if e < 9 {
      var y := m / 10 * 9 + m % 10 - 1;
      assert (Pack(m, e) - 1) / 10 == y;
    }
  }

  lemma PackOfUnpack(x: nat)
    requires x > 0
    ensures var (m, e) := Unpack(x); (e < 9 ==> m % 10 != 0) && Pack(m, e) == x
  {
  }

  function Compress(n: nat): nat {
    if n == 0 then 0
    else
      var (m, e) := Strip(n, 0);
      Pack(m, e)
  }

  function Decompress(x: nat): nat {
    if x == 0 then 0
    else
      var (m, e) := Unpack(x);
      m * Pow10(e)
  }

  lemma TenAssoc(q: nat, p: nat)
    ensures q * (10 * p) == (10 * q) * p == 10 * (q * p)
  {
  }

  lemma {:induction false} StripKeepsValue(n: nat, e: nat)
    requires n > 0 && e <= 9
    ensures Strip(n, e).0 * Pow10(Strip(n, e).1) == n * Pow10(e)
    decreases n
  {
    if n % 10 == 0 && e < 9 {
      StripKeepsValue(n / 10, e + 1);
      TenAssoc(n / 10, Pow10(e));
    }
  }

  lemma StripStep(n: nat, e: nat)
    requires n > 0 && e < 9
    ensures Strip(10 * n, e) == Strip(n, e + 1)
  {
  }

  lemma {:induction false} StripUnique(m: nat, e: nat, k: nat)
    requires m > 0 && k <= e <= 9 && (e < 9 ==> m % 10 != 0)
    ensures m * Pow10(e - k) > 0 && Strip(m * Pow10(e - k), k) == (m, e)
    decreases e - k
  {
    if k < e {
      StripUnique(m, e, k + 1);
      hide Strip;
      TenAssoc(m, Pow10(e - k - 1));
      StripStep(m * Pow10(e - (k + 1)), k);
    }
  }

  /** Compressing amounts is a bijection on the naturals. */
  lemma DecompressOfCompress(n: nat)
    ensures Decompress(Compress(n)) == n
  {
    hide Pack, Unpack, Strip;
    if n > 0 {
      StripKeepsValue(n, 0);
      var (m, e) := Strip(n, 0);
      UnpackOfPack(m, e);
    }
  }

  lemma CompressOfDecompress(x: nat)
    ensures Compress(Decompress(x)) == x
  {
    hide Pack, Unpack, Strip;
    if x > 0 {
      PackOfUnpack(x);
      var (m, e) := Unpack(x);
      StripUnique(m, e, 0);
    }
  }

  /** Up to 2^64 / 9, and so far beyond the money limit, nothing overflows 64 bits. */
  lemma CompressFits(n: nat)
    ensures n > 0 ==> Compress(n) <= 9 * n + 1
    ensures n <= 0xFFFF_FFFF_FFFF_FFFF / 9 - 1 ==> Compress(n) < 0x1_0000_0000_0000_0000
  {
    if n > 0 {
      StripKeepsValue(n, 0);
      var (m, e) := Strip(n, 0);
      StripBound(m, e);
    }
  }

  lemma StripBound(m: nat, e: nat)
    requires m > 0 && e <= 9
    ensures m * Pow10(e) >= m && (e == 9 ==> m * Pow10(e) >= 10 * m) && m * Pow10(e) >= m + 9 * e
  {
    if e > 0 {
      TenTimes(e);
      AtLeastTen(m, Pow10(e));
    }
  }

  lemma AtLeastTen(m: nat, p: nat)
    requires m > 0 && p >= 10
    ensures m * p >= p + (m - 1) * 10
  {
    assert m * p == p + (m - 1) * p;
    TimesMono(m - 1, m - 1, 10, p);
  }

  lemma {:induction false} TenTimes(e: nat)
    requires e > 0
    ensures Pow10(e) >= 10 && Pow10(e) >= 9 * e + 1
  {
    if e > 1 {
      TenTimes(e - 1);
    }
  }

  /** The compressed form in numbers: the zeros at the end, at most nine, become the last digit, and of what remains
      the last digit d is stored in base nine, since it is not zero; nine zeros leave no such digit. */
  lemma CompressIs(n: nat, d: nat, e: nat)
    requires 1 <= d <= 9 && e < 9
    ensures Compress((10 * n + d) * Pow10(e)) == 1 + 10 * (9 * n + d - 1) + e
    ensures n > 0 ==> Compress(n * 1_000_000_000) == 1 + 10 * (n - 1) + 9
  {
    hide Compress, Pow10, Pack;
    PackIs(n, d, e);
    CompressIsPack(10 * n + d, e);
    if n > 0 {
      CompressIsPack(n, 9);
      TenToNine();
    }
  }

  lemma PackIs(n: nat, d: nat, e: nat)
    requires 1 <= d <= 9 && e < 9
    ensures (10 * n + d) % 10 != 0 && Pack(10 * n + d, e) == 1 + 10 * (9 * n + d - 1) + e
    ensures n > 0 ==> Pack(n, 9) == 1 + 10 * (n - 1) + 9
  {
    assert (10 * n + d) / 10 == n && (10 * n + d) % 10 == d;
  }

  lemma TenToNine()
    ensures Pow10(9) == 1_000_000_000
  {
  }

  lemma CompressIsPack(m: nat, e: nat)
    requires m > 0 && e <= 9 && (e < 9 ==> m % 10 != 0)
    ensures Compress(m * Pow10(e)) == Pack(m, e)
  {
    StripOf(m, 0, e);
    hide Pow10, Strip, Pack;
  }

  lemma PositiveTimes(a: nat, b: nat)
    requires a > 0 && b > 0
    ensures a * b > 0
  {
  }

  /** Stripping takes out exactly the zeros that are there. */
  lemma {:induction false} StripOf(m: nat, e: nat, k: nat)
    requires m > 0 && e + k <= 9 && (e + k < 9 ==> m % 10 != 0)
    ensures m * Pow10(k) > 0 && Strip(m * Pow10(k), e) == (m, e + k)
    decreases k
  {
    PositiveTimes(m, Pow10(k));
    if k > 0 {
      StripOf(m, e + 1, k - 1);
      TenAssoc(m, Pow10(k - 1));
      TenfoldStrips(m * Pow10(k - 1), e);
    }
  }

  lemma TenfoldStrips(q: nat, e: nat)
    requires q > 0 && e < 9
    ensures Strip(10 * q, e) == Strip(q, e + 1)
  {
    assert 10 * q % 10 == 0 && 10 * q / 10 == q;
  }

  method CompressAmount(amount: nat) returns (x: nat)
    ensures x == Compress(amount)
  {
    if amount == 0 {
      return 0;
    }
    var n, e: nat := amount, 0;
    while n % 10 == 0 && e < 9
      invariant n > 0 && e <= 9 && Strip(n, e) == Strip(amount, 0)
      decreases n
    {
      n := n / 10;
      e := e + 1;
    }
    if e < 9 {
      var d := n % 10;
      assert 1 <= d <= 9;
      n := n / 10;
      x := 1 + (n * 9 + d - 1) * 10 + e;
    } else {
      x := 1 + (n - 1) * 10 + 9;
    }
  }

  method DecompressAmount(amount: nat) returns (n: nat)
    ensures n == Decompress(amount)
  {
    if amount == 0 {
      return 0;
    }
    var x := amount - 1;
    var e: nat := x % 10;
    x := x / 10;
    if e < 9 {
      var d := x % 9 + 1;
      x := x / 9;
      n := x * 10 + d;
    } else {
      n := x + 1;
    }
    while e > 0
      invariant n * Pow10(e) == Decompress(amount)
    {
      TenAssoc(n, Pow10(e - 1));
      n := n * 10;
      e := e - 1;
    }
  }

  // ---------- scripts ----------

  const OP_DUP: nat := 0x76
  const OP_EQUAL: nat := 0x87
  const OP_EQUALVERIFY: nat := 0x88
  const OP_HASH160: nat := 0xa9
  const OP_CHECKSIG: nat := 0xac
  const SPECIAL_SCRIPTS: nat := 6

  /** What the key library does: whether a 65-byte key is valid, and the 65-byte form of a 33-byte key. */
  datatype Keys = Keys(fullyValid: Script -> bool, expand: Script -> Option<Script>)

  function Halved(key: Script): Script
    requires |key| == 65
  {
    [2 + key[64] % 2] + key[1..33]
  }

  /** The one thing assumed of it: a valid key comes back from its x coordinate and the parity of y. */
  ghost predicate KeysOk(keys: Keys) {
    forall k {:trigger keys.fullyValid(k)} ::
      |k| == 65 && k[0] == 4 && keys.fullyValid(k) ==> keys.expand(Halved(k)) == Some(k)
  }

  function CompressScript(keys: Keys, s: Script): Option<Stream> {
    if |s| == 25 && s[0] == OP_DUP && s[1] == OP_HASH160 && s[2] == 20 && s[23] == OP_EQUALVERIFY && s[24] == OP_CHECKSIG
    then Some([0] + s[3..23])
    else if |s| == 23 && s[0] == OP_HASH160 && s[1] == 20 && s[22] == OP_EQUAL then Some([1] + s[2..22])
    else if |s| == 35 && s[0] == 33 && s[34] == OP_CHECKSIG && (s[1] == 2 || s[1] == 3) then Some([s[1]] + s[2..34])
    else if |s| == 67 && s[0] == 65 && s[66] == OP_CHECKSIG && s[1] == 4 && keys.fullyValid(s[1..66])
    then Some([4 + s[65] % 2] + s[2..34])
    else None
  }

  function SpecialSize(n: nat): nat {
    if n <= 1 then 20 else if n <= 5 then 32 else 0
  }

  /** If a key cannot be expanded the script stays empty. */
  function DecompressScript(keys: Keys, n: nat, bytes: Stream): Script {
    if n == 0 then [OP_DUP, OP_HASH160, 20] + bytes + [OP_EQUALVERIFY, OP_CHECKSIG]
    else if n == 1 then [OP_HASH160, 20] + bytes + [OP_EQUAL]
    else if n <= 3 then [33, n] + bytes + [OP_CHECKSIG]
    else
      match keys.expand([n - 2] + bytes)
      case None => []
      case Some(key) => [65] + key + [OP_CHECKSIG]
  }

  function ScriptBytes(keys: Keys, s: Script): Stream {
    match CompressScript(keys, s)
    case Some(out) => out
    case None => VarInt(|s| + SPECIAL_SCRIPTS) + s
  }

  function ReadScript(keys: Keys, st: Stream): Option<(Script, Stream)> {
    match ReadVarInt(st)
    case None => None
    case Some((n, rest)) =>
      if n < SPECIAL_SCRIPTS then
        var k := SpecialSize(n);
        if |rest| < k then None else Some((DecompressScript(keys, n, rest[..k]), rest[k..]))
      else if |rest| < n - SPECIAL_SCRIPTS then None
      else Some((rest[..n - SPECIAL_SCRIPTS], rest[n - SPECIAL_SCRIPTS..]))
  }

  lemma HalvedSlice(s: Script, key: Script)
    requires |s| == 67 && key == s[1..66]
    ensures Halved(key) == [2 + s[65] % 2] + s[2..34]
  {
    assert key[64] == s[65];
    assert key[1..33] == s[2..34];
  }

  /** Compressing loses nothing: the recognised forms are rebuilt byte by byte. */
  lemma DecompressOfCompressScript(keys: Keys, s: Script)
    requires KeysOk(keys) && CompressScript(keys, s).Some?
    ensures var out := CompressScript(keys, s).value;
      out != [] && out[0] < SPECIAL_SCRIPTS && |out| == 1 + SpecialSize(out[0]) && DecompressScript(keys, out[0], out[1..]) == s
  {
    var out := CompressScript(keys, s).value;
    if out[0] == 0 {
      assert s == [OP_DUP, OP_HASH160, 20] + out[1..] + [OP_EQUALVERIFY, OP_CHECKSIG];
    } else if out[0] == 1 {
      assert s == [OP_HASH160, 20] + out[1..] + [OP_EQUAL];
    } else if out[0] <= 3 {
      assert s == [33, out[0]] + out[1..] + [OP_CHECKSIG];
    } else {
      var key := s[1..66];
      assert keys.fullyValid(key);
      HalvedSlice(s, key);
      assert out[1..] == s[2..34];
      assert [out[0] - 2] + out[1..] == Halved(key);
      assert s == [65] + key + [OP_CHECKSIG];
    }
  }

  lemma ScriptRead(keys: Keys, s: Script, rest: Stream)
    requires KeysOk(keys)
    ensures ReadScript(keys, ScriptBytes(keys, s) + rest) == Some((s, rest))
  {
    hide CompressScript, DecompressScript, VarInt, ReadVarInt;
    match CompressScript(keys, s)
    case Some(out) =>
      DecompressOfCompressScript(keys, s);
      SmallVarInt(out[0], out[1..] + rest);
      assert out + rest == [out[0]] + (out[1..] + rest);
      assert (out[1..] + rest)[..|out| - 1] == out[1..] && (out[1..] + rest)[|out| - 1..] == rest;
    case None =>
      VarIntIff(|s| + SPECIAL_SCRIPTS, s + rest);
      assert VarInt(|s| + SPECIAL_SCRIPTS) + s + rest == VarInt(|s| + SPECIAL_SCRIPTS) + (s + rest);
      assert (s + rest)[..|s|] == s && (s + rest)[|s|..] == rest;
  }

  /** How the five kinds of script are stored: a hash of a key or of a script, a compressed key and a valid full key
      in 21 or 33 bytes, and anything else in full, behind its length plus 6. */
  lemma StoredForms(keys: Keys, x: Stream, s: Script)
    ensures |x| == 20 ==> ScriptBytes(keys, [0x76, 0xa9, 20] + x + [0x88, 0xac]) == [0] + x
    ensures |x| == 20 ==> ScriptBytes(keys, [0xa9, 20] + x + [0x87]) == [1] + x
    ensures |x| == 32 ==> ScriptBytes(keys, [33, 2] + x + [0xac]) == [2] + x && ScriptBytes(keys, [33, 3] + x + [0xac]) == [3] + x
    ensures |x| == 65 && x[0] == 4 && keys.fullyValid(x) ==> ScriptBytes(keys, [65] + x + [0xac]) == [4 + x[64] % 2] + x[1..33]
    ensures CompressScript(keys, s) == None ==>
              WellFormed(VarInt(|s| + 6)) && Meaning(VarInt(|s| + 6)) == |s| + 6 && ScriptBytes(keys, s) == VarInt(|s| + 6) + s
  {
    StoredHashes(keys, x);
    StoredKeys(keys, x);
    VarIntMeans(|s| + 6);
  }

  lemma StoredHashes(keys: Keys, x: Stream)
    ensures |x| == 20 ==> ScriptBytes(keys, [0x76, 0xa9, 20] + x + [0x88, 0xac]) == [0] + x
    ensures |x| == 20 ==> ScriptBytes(keys, [0xa9, 20] + x + [0x87]) == [1] + x
  {
    if |x| == 20 {
      assert ([0x76, 0xa9, 20] + x + [0x88, 0xac])[3..23] == x;
      assert ([0xa9, 20] + x + [0x87])[2..22] == x;
    }
  }

  lemma StoredKeys(keys: Keys, x: Stream)
    ensures |x| == 32 ==> ScriptBytes(keys, [33, 2] + x + [0xac]) == [2] + x && ScriptBytes(keys, [33, 3] + x + [0xac]) == [3] + x
    ensures |x| == 65 && x[0] == 4 && keys.fullyValid(x) ==> ScriptBytes(keys, [65] + x + [0xac]) == [4 + x[64] % 2] + x[1..33]
  {
    if |x| == 32 {
      assert ([33, 2] + x + [0xac])[2..34] == x;
      assert ([33, 3] + x + [0xac])[2..34] == x;
    }
    if |x| == 65 {
      var s := [65] + x + [0xac];
      assert s[1..66] == x;
      assert s[2..34] == x[1..33];
      assert s[65] == x[64];
    }
  }

  lemma SmallVarInt(n: nat, rest: Stream)
    requires n <= 0x7F
    ensures ReadVarInt([n] + rest) == Some((n, rest))
  {
    VarIntIff(n, rest);
  }

  // ---------- outputs ----------

  function OutBytes(keys: Keys, o: TxOut): Stream
    requires o.value >= 0
  {
    VarInt(Compress(o.value)) + ScriptBytes(keys, o.script)
  }

  function ReadOut(keys: Keys, st: Stream): Option<(TxOut, Stream)> {
    match ReadVarInt(st)
    case None => None
    case Some((x, rest)) =>
      match ReadScript(keys, rest)
      case None => None
      case Some((script, rest')) => Some((TxOut(Decompress(x), script), rest'))
  }

  lemma OutRead(keys: Keys, o: TxOut, rest: Stream)
    requires KeysOk(keys) && o.value >= 0
    ensures ReadOut(keys, OutBytes(keys, o) + rest) == Some((o, rest))
  {
    hide VarInt, ReadVarInt, ScriptBytes, ReadScript, Compress, Decompress;
    var a, b := VarInt(Compress(o.value)), ScriptBytes(keys, o.script);
    assert a + b + rest == a + (b + rest);
    VarIntIff(Compress(o.value), b + rest);
    ScriptRead(keys, o.script, rest);
    DecompressOfCompress(o.value);
  }
}
