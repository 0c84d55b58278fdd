/** Base 58 encoding of byte strings (src/base58.cpp). */
module Base58 {
  import opened Base
  import opened Powers

  type Byte = n: nat | n < 256

  // ---------- the buffers are large enough ----------

  function Product(m: nat, n: nat): (r: nat)
    ensures r == m * n
  {
    m * n
  }

  /** If b^p >= c^q, then b^m >= c^n wherever m/n >= p/q. */
  lemma PowersCompare(b: nat, p: nat, c: nat, q: nat, m: nat, n: nat)
    requires b > 0 && q > 0 && Pow(b, p) >= Pow(c, q) && p * n <= m * q
    ensures Pow(b, m) >= Pow(c, n)
  {
    var x, y := Product(p, n), Product(m, q);
    hide Pow;
    PowersSwap(c, q, n);
    PowersSwap(b, m, q);
    PowMul(b, p, n);
    PowBaseMono(Pow(c, q), Pow(b, p), n);
    PowMono(b, x, y);
    RootMono(Pow(b, m), Pow(c, n), q);
  }

  lemma RootMono(x: nat, y: nat, q: nat)
    requires q > 0 && Pow(x, q) >= Pow(y, q)
    ensures x >= y
  {
    if x < y {
      PowBaseStrict(x, y, q);
    }
  }

  /** Exponents can be applied in either order. */
  lemma PowersSwap(b: nat, m: nat, n: nat)
    ensures Pow(Pow(b, m), n) == Pow(Pow(b, n), m) == Pow(b, m * n)
  {
    PowMul(b, m, n);
    PowMul(b, n, m);
    assert m * n == n * m;
  }

  lemma FiftyEight()
    ensures Pow(58, 11) >= Pow(256, 8)
    ensures Pow(58, 71) <= Pow(256, 52)
  {
    hide Pow;
    Squares(58);
    Squares(256);
    PowAdd(58, 8, 2);
    PowAdd(58, 10, 1);
    PowAdd(58, 64, 4);
    PowAdd(58, 68, 2);
    PowAdd(58, 70, 1);
    PowAdd(256, 32, 16);
    PowAdd(256, 48, 4);
  }

  lemma Squares(b: nat)
    ensures Pow(b, 1) == b && Pow(b, 2) == b * b
    ensures Pow(b, 4) == Pow(b, 2) * Pow(b, 2)
    ensures Pow(b, 8) == Pow(b, 4) * Pow(b, 4)
    ensures Pow(b, 16) == Pow(b, 8) * Pow(b, 8)
    ensures Pow(b, 32) == Pow(b, 16) * Pow(b, 16)
    ensures Pow(b, 64) == Pow(b, 32) * Pow(b, 32)
  {
    assert Pow(b, 1) == Pow(b, 0) * b;
    assert Pow(b, 2) == Pow(b, 1) * b;
    hide Pow;
    PowAdd(b, 2, 2);
    PowAdd(b, 4, 4);
    PowAdd(b, 8, 8);
    PowAdd(b, 16, 16);
    PowAdd(b, 32, 32);
  }

  /** 138/100 digits in base 58 per byte, rounded down, and one more are always enough. */
  lemma EncodeFits(n: nat)
    ensures Pow(58, n * 138 / 100 + 1) >= Pow(256, n)
  {
    FiftyEight();
    hide Pow;
    PowersCompare(58, 11, 256, 8, n * 138 / 100 + 1, n);
  }

  /** 733/1000 bytes per digit, rounded down, and one more are always enough. */
  lemma DecodeFits(n: nat)
    ensures Pow(256, n * 733 / 1000 + 1) >= Pow(58, n)
  {
    FiftyEight();
    hide Pow;
    PowersCompare(256, 52, 58, 71, n * 733 / 1000 + 1, n);
  }

  // ---------- digits, most significant first ----------

  function Val(s: seq<nat>, base: nat): nat {
    if s == [] then 0 else Val(s[..|s| - 1], base) * base + s[|s| - 1]
  }

  ghost predicate Digits(s: seq<nat>, base: nat) {
    forall i :: 0 <= i < |s| ==> s[i] < base
  }

  /** The digits of a number, without leading zeros. */
  function Expand(n: nat, base: nat): seq<nat>
    requires base > 1
  {
    if n == 0 then []
    else
      DivLess(n, base);
      Expand(n / base, base) + [n % base]
  }

  lemma AtLeastTwice(q: nat, base: nat)
    requires base > 1
    ensures q * base >= 2 * q
  {
  }

  lemma DivLess(n: nat, base: nat)
    requires base > 1 && n > 0
    ensures 0 <= n / base < n && 0 <= n % base < base
  {
    DivMod(n, base);
    AtLeastTwice(n / base, base);
  }

  lemma {:induction false} ValCons(s: seq<nat>, base: nat)
    requires s != []
    ensures Val(s, base) == s[0] * Pow(base, |s| - 1) + Val(s[1..], base)
    decreases |s|
  {
    var k := |s| - 1;
    if k == 0 {
      assert s[..0] == [] && s[1..] == [];
      assert Val([], base) == 0;
      assert Pow(base, 0) == 1;
    } else {
      ValCons(s[..k], base);
      assert s[..k][1..] == s[1..][..k - 1] && s[1..][k - 1] == s[k] && s[..k][0] == s[0];
      ConsStep(s[0], Pow(base, k - 1), Val(s[1..][..k - 1], base), base);
    }
  }

  lemma ConsStep(d: nat, p: nat, v: nat, base: nat)
    ensures (d * p + v) * base == d * (p * base) + v * base
  {
  }

  lemma {:induction false} ValBound(s: seq<nat>, base: nat)
    requires Digits(s, base)
    ensures Val(s, base) < Pow(base, |s|) || (s == [] && Val(s, base) == 0)
    decreases |s|
  {
    if s != [] {
      var k := |s| - 1;
      ValBound(s[..k], base);
      if k > 0 {
        BoundStep(Val(s[..k], base), Pow(base, k), base, s[k]);
      }
    }
  }

  lemma BoundStep(v: nat, p: nat, base: nat, d: nat)
    requires v < p && d < base
    ensures v * base + d < p * base
  {
    assert (v + 1) * base <= p * base;
  }

  lemma DivStep(v: nat, base: nat, d: nat)
    requires d < base
    ensures (v * base + d) / base == v && (v * base + d) % base == d
  {
    var n := v * base + d;
    DivMod(n, base);
    SameQuotient(n / base, n % base, v, d, base);
  }

  lemma SameQuotient(q: nat, r: nat, v: nat, d: nat, base: nat)
    requires q * base + r == v * base + d && r < base && d < base
    ensures q == v && r == d
  {
    assert q < v ==> (q + 1) * base <= v * base;
    assert v < q ==> (v + 1) * base <= q * base;
  }

  lemma ExpandStep(n: nat, base: nat)
    requires base > 1 && n > 0
    ensures 0 <= n / base < n && 0 <= n % base < base && Expand(n, base) == Expand(n / base, base) + [n % base]
  {
    DivLess(n, base);
  }

  /** Digits without a leading zero are determined by their value. */
  lemma {:induction false} ExpandVal(s: seq<nat>, base: nat)
    requires base > 1 && Digits(s, base) && (s == [] || s[0] != 0)
    ensures Expand(Val(s, base), base) == s
    decreases |s|
  {
    if s != [] {
      var k := |s| - 1;
      var v := Val(s[..k], base);
      ExpandVal(s[..k], base);
      DivStep(v, base, s[k]);
      if k == 0 {
        assert s[..0] == [];
      } else {
        NotZero(s[..k], base);
      }
      assert s == s[..k] + [s[k]];
    }
  }

  lemma NotZero(s: seq<nat>, base: nat)
    requires base > 0 && s != [] && s[0] != 0
    ensures Val(s, base) > 0
  {
    ValCons(s, base);
    PositiveProduct(s[0], Pow(base, |s| - 1));
  }

  lemma PositiveProduct(a: nat, b: nat)
    requires a > 0 && b > 0
    ensures a * b > 0
  {
  }

  lemma {:induction false} ValExpand(n: nat, base: nat)
    requires base > 1
    ensures Val(Expand(n, base), base) == n && Digits(Expand(n, base), base)
    ensures n > 0 ==> Expand(n, base) != [] && Expand(n, base)[0] != 0
    decreases n
  {
    if n > 0 {
      DivLess(n, base);
      ExpandStep(n, base);
      var q, d := n / base, n % base;
      ValExpand(q, base);
      var rest := Expand(q, base);
      assert (rest + [d])[..|rest|] == rest;
      DivMod(n, base);
    }
  }

  // ---------- leading zeros ----------

  function Zeros(s: seq<nat>): (z: nat)
    ensures z <= |s| && (forall i :: 0 <= i < z ==> s[i] == 0) && (z < |s| ==> s[z] != 0)
  {
    if s == [] || s[0] != 0 then 0 else 1 + Zeros(s[1..])
  }

  lemma {:induction false} SkipZeros(s: seq<nat>, base: nat, z: nat)
    requires z <= |s| && forall i :: 0 <= i < z ==> s[i] == 0
    ensures Val(s[z..], base) == Val(s, base)
    decreases z
  {
    if z == 0 {
      assert s[0..] == s;
    } else {
      SkipZeros(s[1..], base, z - 1);
      assert s[1..][z - 1..] == s[z..];
      ValCons(s, base);
    }
  }

  lemma ZerosUnique(s: seq<nat>, z: nat)
    requires z <= |s| && (forall i :: 0 <= i < z ==> s[i] == 0) && (z < |s| ==> s[z] != 0)
    ensures Zeros(s) == z
  {
  }

  // ---------- the carry loop ----------

  /** The buffer's low digits and the carry above them hold the product so far. */
  ghost predicate Carried(base: nat, factor: nat, digit: nat, low: seq<nat>, lowBefore: seq<nat>, carry: nat) {
    Val(low, base) + carry * Pow(base, |low|) == factor * Val(lowBefore, base) + digit
  }

  lemma CarriedStart(base: nat, factor: nat, digit: nat)
    ensures Carried(base, factor, digit, [], [], digit)
  {
    EmptyVal(base);
  }

  lemma CarriedNext(base: nat, factor: nat, digit: nat, low: seq<nat>, lowBefore: seq<nat>, carry: nat, d: nat, sum: nat)
    requires base > 1 && carry < factor && d < base && |low| == |lowBefore| && sum == carry + factor * d
    requires Carried(base, factor, digit, low, lowBefore, carry)
    ensures 0 <= sum / base < factor && 0 <= sum % base < base
    ensures Carried(base, factor, digit, [sum % base] + low, [d] + lowBefore, sum / base)
  {
    hide Val, Pow;
    DivMod(sum, base);
    var low', before' := [sum % base] + low, [d] + lowBefore;
    ValCons(low', base);
    ValCons(before', base);
    assert low'[1..] == low && before'[1..] == lowBefore;
    PowNext(base, |low|);
    CarryStep(carry, factor, d, base, Pow(base, |low|), Val(low, base), Val(lowBefore, base), digit);
  }

  /** Multiplies the number in the buffer by `factor` and adds `digit`, from the right. */
  method MulAdd(b: array<nat>, base: nat, factor: nat, digit: nat) returns (carry: nat)
    requires base > 1 && digit < factor && Digits(b[..], base)
    modifies b
    ensures Digits(b[..], base) && carry < factor
    ensures Val(b[..], base) + carry * Pow(base, b.Length) == factor * Val(old(b[..]), base) + digit
  {
    hide Val, Pow, Carried;
    carry := digit;
    var i := b.Length;
    ghost var before := b[..];
    assert before[i..] == [] == b[i..];
    CarriedStart(base, factor, digit);
    while i > 0
      invariant 0 <= i <= b.Length && carry < factor
      invariant b[..i] == before[..i] && Digits(b[i..], base)
      invariant Carried(base, factor, digit, b[i..], before[i..], carry)
    {
      i := i - 1;
      ghost var low := b[i + 1..];
      assert before[i] == b[i] by { assert before[..i + 1][i] == b[..i + 1][i]; }
      assert b[i] < base;
      var sum: nat := carry + factor * b[i];
      CarriedNext(base, factor, digit, low, before[i + 1..], carry, b[i], sum);
      b[i] := sum % base;
      carry := sum / base;
      assert b[i..] == [b[i]] + low;
      assert before[i..] == [before[i]] + before[i + 1..];
      assert b[..i] == before[..i];
    }
    assert b[0..] == b[..] && before[0..] == before;
    CarriedDone(base, factor, digit, b[..], before, carry);
  }

  lemma CarriedDone(base: nat, factor: nat, digit: nat, s: seq<nat>, before: seq<nat>, carry: nat)
    requires Carried(base, factor, digit, s, before, carry)
    ensures Val(s, base) + carry * Pow(base, |s|) == factor * Val(before, base) + digit
  {
  }

  lemma EmptyVal(base: nat)
    ensures Val([], base) == 0 && Pow(base, 0) == 1
  {
  }

  lemma PowNext(b: nat, n: nat)
    ensures Pow(b, n + 1) == Pow(b, n) * b
  {
  }

  lemma CarryStep(c: nat, factor: nat, d: nat, base: nat, p: nat, low: nat, oldLow: nat, digit: nat)
    requires base > 1 && c < factor && d < base && low + c * p == factor * oldLow + digit
    ensures (c + factor * d) / base < factor
    ensures (c + factor * d) % base * p + low + (c + factor * d) / base * (p * base) == factor * (d * p + oldLow) + digit
  {
    var sum := c + factor * d;
    var q, r := sum / base, sum % base;
    assert sum == q * base + r;
    CarryBound(c, factor, d, base, q, r);
    assert r * p + q * (p * base) == (r + q * base) * p by { assert q * (p * base) == q * base * p; }
    assert (c + factor * d) * p == c * p + factor * (d * p);
  }

  lemma CarryBound(c: nat, factor: nat, d: nat, base: nat, q: nat, r: nat)
    requires c < factor && d < base && c + factor * d == q * base + r
    ensures q < factor
  {
    TimesMono(d + 1, base, factor, factor);
    assert (d + 1) * factor == factor * d + factor;
    if q >= factor {
      TimesMono(factor, q, base, base);
    }
  }

  // ---------- the alphabet ----------

  /** All digits and letters except 0, I, O and l, in the order of their codes. */
  function CharOf(d: nat): char
    requires d < 58
  {
    if d < 9 then '1' + d as char
    else if d < 17 then 'A' + (d - 9) as char
    else if d < 22 then 'J' + (d - 17) as char
    else if d < 33 then 'P' + (d - 22) as char
    else if d < 44 then 'a' + (d - 33) as char
    else 'm' + (d - 44) as char
  }

  /** Written out, in its unbroken runs. */
  const ALPHABET: string := "123456789" + "ABCDEFGH" + "JKLMN" + "PQRSTUVWXYZ" + "abcdefghijk" + "mnopqrstuvwxyz"

  lemma Run1(i: nat)
    requires i < 9
    ensures CharOf(i) == "123456789"[i]
  {
    var s := "123456789";
    assert s[0] == '1' && s[1] == '2' && s[2] == '3' && s[3] == '4' && s[4] == '5' && s[5] == '6' && s[6] == '7' && s[7] == '8' && s[8] == '9';
  }

  lemma Run2(i: nat)
    requires i < 8
    ensures CharOf(9 + i) == "ABCDEFGH"[i]
  {
    var s := "ABCDEFGH";
    assert s[0] == 'A' && s[1] == 'B' && s[2] == 'C' && s[3] == 'D' && s[4] == 'E' && s[5] == 'F' && s[6] == 'G' && s[7] == 'H';
  }

  lemma Run3(i: nat)
    requires i < 5
    ensures CharOf(17 + i) == "JKLMN"[i]
  {
    var s := "JKLMN";
    assert s[0] == 'J' && s[1] == 'K' && s[2] == 'L' && s[3] == 'M' && s[4] == 'N';
  }

  lemma Run4(i: nat)
    requires i < 11
    ensures CharOf(22 + i) == "PQRSTUVWXYZ"[i]
  {
    var s := "PQRSTUVWXYZ";
    assert s[0] == 'P' && s[1] == 'Q' && s[2] == 'R' && s[3] == 'S' && s[4] == 'T' && s[5] == 'U' && s[6] == 'V' && s[7] == 'W' && s[8] == 'X' && s[9] == 'Y' && s[10] == 'Z';
  }

  lemma Run5(i: nat)
    requires i < 11
    ensures CharOf(33 + i) == "abcdefghijk"[i]
  {
    var s := "abcdefghijk";
    assert s[0] == 'a' && s[1] == 'b' && s[2] == 'c' && s[3] == 'd' && s[4] == 'e' && s[5] == 'f' && s[6] == 'g' && s[7] == 'h' && s[8] == 'i' && s[9] == 'j' && s[10] == 'k';
  }

  lemma Run6(i: nat)
    requires i < 14
    ensures CharOf(44 + i) == "mnopqrstuvwxyz"[i]
  {
    var s := "mnopqrstuvwxyz";
    assert s[0] == 'm' && s[1] == 'n' && s[2] == 'o' && s[3] == 'p' && s[4] == 'q' && s[5] == 'r' && s[6] == 's' && s[7] == 't' && s[8] == 'u' && s[9] == 'v' && s[10] == 'w' && s[11] == 'x' && s[12] == 'y' && s[13] == 'z';
  }

  lemma JoinAt(a: string, b: string, c: string, d: string, e: string, f: string, i: nat)
    ensures i < |a| ==> (a + b + c + d + e + f)[i] == a[i]
    ensures i < |b| ==> (a + b + c + d + e + f)[|a| + i] == b[i]
    ensures i < |c| ==> (a + b + c + d + e + f)[|a| + |b| + i] == c[i]
    ensures i < |d| ==> (a + b + c + d + e + f)[|a| + |b| + |c| + i] == d[i]
    ensures i < |e| ==> (a + b + c + d + e + f)[|a| + |b| + |c| + |d| + i] == e[i]
    ensures i < |f| ==> (a + b + c + d + e + f)[|a| + |b| + |c| + |d| + |e| + i] == f[i]
  {
  }

  /** The digit d is written as the character d of the alphabet. */
  lemma CharIsInAlphabet(d: nat)
    requires d < 58
    ensures |ALPHABET| == 58 && CharOf(d) == ALPHABET[d]
  {
    hide CharOf;
    if d < 9 {
      Run1(d);
      JoinAt("123456789", "ABCDEFGH", "JKLMN", "PQRSTUVWXYZ", "abcdefghijk", "mnopqrstuvwxyz", d);
    } else if d < 17 {
      Run2(d - 9);
      JoinAt("123456789", "ABCDEFGH", "JKLMN", "PQRSTUVWXYZ", "abcdefghijk", "mnopqrstuvwxyz", d - 9);
    } else if d < 22 {
      Run3(d - 17);
      JoinAt("123456789", "ABCDEFGH", "JKLMN", "PQRSTUVWXYZ", "abcdefghijk", "mnopqrstuvwxyz", d - 17);
    } else if d < 33 {
      Run4(d - 22);
      JoinAt("123456789", "ABCDEFGH", "JKLMN", "PQRSTUVWXYZ", "abcdefghijk", "mnopqrstuvwxyz", d - 22);
    } else if d < 44 {
      Run5(d - 33);
      JoinAt("123456789", "ABCDEFGH", "JKLMN", "PQRSTUVWXYZ", "abcdefghijk", "mnopqrstuvwxyz", d - 33);
    } else {
      Run6(d - 44);
      JoinAt("123456789", "ABCDEFGH", "JKLMN", "PQRSTUVWXYZ", "abcdefghijk", "mnopqrstuvwxyz", d - 44);
    }
  }

  /** The first digit from k on that is written as c. */
  function IndexFrom(c: char, k: nat): Option<nat>
    decreases 58 - k
  {
    if k >= 58 then None else if CharOf(k) == c then Some(k) else IndexFrom(c, k + 1)
  }

  function DigitOf(c: char): Option<nat> {
    IndexFrom(c, 0)
  }

  predicate IsSpace(c: char) {
    c == ' ' || '\t' <= c <= '\r'
  }

  lemma {:induction false} IndexFound(k: nat, d: nat)
    requires k <= d < 58
    ensures IndexFrom(CharOf(d), k) == Some(d)
    decreases d - k
  {
    if k < d {
      IndexFound(k + 1, d);
    }
  }

  lemma {:induction false} IndexRight(c: char, k: nat)
    ensures IndexFrom(c, k).Some? ==> IndexFrom(c, k).value < 58 && CharOf(IndexFrom(c, k).value) == c
    decreases 58 - k
  {
    if k < 58 {
      IndexRight(c, k + 1);
    }
  }

  lemma CharFacts(d: nat)
    requires d < 58
    ensures DigitOf(CharOf(d)) == Some(d) && !IsSpace(CharOf(d)) && (CharOf(d) == '1' <==> d == 0)
  {
    IndexFound(0, d);
  }

  predicate Valid(s: string) {
    forall i :: 0 <= i < |s| ==> DigitOf(s[i]).Some?
  }

  function Chars(d: seq<nat>): (s: string)
    requires forall i :: 0 <= i < |d| ==> d[i] < 58
    ensures |s| == |d| && forall i :: 0 <= i < |d| ==> s[i] == CharOf(d[i])
  {
    if d == [] then [] else Chars(d[..|d| - 1]) + [CharOf(d[|d| - 1])]
  }

  function DigitsOf(s: string): (d: seq<nat>)
    requires Valid(s)
    ensures |d| == |s| && forall i :: 0 <= i < |s| ==> d[i] == DigitOf(s[i]).value
  {
    if s == [] then [] else DigitsOf(s[..|s| - 1]) + [DigitOf(s[|s| - 1]).value]
  }

  lemma CharsAndDigits(d: seq<nat>)
    requires Digits(d, 58)
    ensures Valid(Chars(d)) && DigitsOf(Chars(d)) == d
    ensures forall i :: 0 <= i < |d| ==> !IsSpace(Chars(d)[i]) && (Chars(d)[i] == '1' <==> d[i] == 0)
  {
    hide DigitOf, CharOf, IsSpace, Chars, DigitsOf;
    forall i | 0 <= i < |d|
      ensures DigitOf(Chars(d)[i]) == Some(d[i]) && !IsSpace(Chars(d)[i]) && (Chars(d)[i] == '1' <==> d[i] == 0)
    {
      CharFacts(d[i]);
    }
  }

  lemma DigitsAndChars(s: string)
    requires Valid(s)
    ensures Digits(DigitsOf(s), 58) && Chars(DigitsOf(s)) == s
    ensures forall i :: 0 <= i < |s| ==> !IsSpace(s[i]) && (s[i] == '1' <==> DigitsOf(s)[i] == 0)
  {
    hide CharOf, IsSpace, Chars, DigitsOf, IndexFrom;
    forall i | 0 <= i < |s|
      ensures DigitOf(s[i]).value < 58 && CharOf(DigitOf(s[i]).value) == s[i]
      ensures !IsSpace(s[i]) && (s[i] == '1' <==> DigitOf(s[i]).value == 0)
    {
      IndexRight(s[i], 0);
      CharFacts(DigitOf(s[i]).value);
    }
  }

  // ---------- encoding and decoding ----------

  function Repeat<T>(x: T, n: nat): (s: seq<T>)
    ensures |s| == n && forall i :: 0 <= i < n ==> s[i] == x
  {
    if n == 0 then [] else Repeat(x, n - 1) + [x]
  }

  /** One '1' per leading zero byte, then the number in base 58. */
  function Encode(v: seq<nat>): string {
    ValExpand(Val(v, 256), 58);
    Repeat('1', Zeros(v)) + Chars(Expand(Val(v, 256), 58))
  }

  /** How many characters satisfy the test before the first that does not. */
  function Run(s: string, test: char -> bool): (n: nat)
    ensures n <= |s| && (forall i :: 0 <= i < n ==> test(s[i])) && (n < |s| ==> !test(s[n]))
  {
    if s == [] || !test(s[0]) then 0 else 1 + Run(s[1..], test)
  }

  function Word(s: string): (n: nat)
    ensures n <= |s|
  {
    Run(s, c => !IsSpace(c))
  }

  /** The string without the spaces around it. */
  function Trimmed(s: string): string {
    var s1 := s[Run(s, IsSpace)..];
    s1[..Word(s1)]
  }

  /** Spaces, one word of the alphabet, spaces. */
  function Decode(s: string): Option<seq<nat>> {
    var t := s[Run(s, IsSpace)..];
    var rest := t[Word(t)..];
    var word := Trimmed(s);
    if !Valid(word) || Run(rest, IsSpace) != |rest| then None
    else
      var d := DigitsOf(word);
      Some(Repeat(0, Zeros(d)) + Expand(Val(d, 58), 256))
  }

  lemma NoSpaces(s: string)
    requires forall i :: 0 <= i < |s| ==> !IsSpace(s[i])
    ensures Run(s, IsSpace) == 0 && Word(s) == |s| && Trimmed(s) == s && s[Word(s)..] == []
  {
    assert s[0..] == s;
  }

  /** Changing the base and back gives the digits back, leading zeros included. */
  lemma OtherBase(d: seq<nat>, base: nat, other: nat)
    requires base > 1 && other > 1 && Digits(d, base)
    ensures var e := Repeat(0, Zeros(d)) + Expand(Val(d, base), other);
      && Digits(e, other) && Zeros(e) == Zeros(d) && Val(e, other) == Val(d, base)
      && Repeat(0, Zeros(e)) + Expand(Val(e, other), base) == d
  {
    hide Zeros, Expand, Val;
    var z, n := Zeros(d), Val(d, base);
    var body := Expand(n, other);
    var e := Repeat(0, z) + body;
    ValExpand(n, other);
    SkipZeros(e, other, z);
    assert e[z..] == body;
    ExpandZero(other);
    ZerosUnique(e, z);
    SkipZeros(d, base, z);
    ExpandVal(d[z..], base);
    assert d == Repeat(0, z) + d[z..];
  }

  lemma ExpandZero(base: nat)
    requires base > 1
    ensures Expand(0, base) == []
  {
  }

  lemma EncodeIsChars(v: seq<nat>)
    ensures Digits(Repeat(0, Zeros(v)) + Expand(Val(v, 256), 58), 58)
    ensures Encode(v) == Chars(Repeat(0, Zeros(v)) + Expand(Val(v, 256), 58))
  {
    hide Zeros, Expand, Val;
    ValExpand(Val(v, 256), 58);
  }

  /** Decoding an encoded byte string gives it back. */
  lemma DecodeOfEncode(v: seq<nat>)
    requires Digits(v, 256)
    ensures Decode(Encode(v)) == Some(v)
  {
    hide Zeros, Expand, Val, Encode, Run, Valid, IsSpace;
    var e := Repeat(0, Zeros(v)) + Expand(Val(v, 256), 58);
    EncodeIsChars(v);
    OtherBase(v, 256, 58);
    CharsAndDigits(e);
    NoSpaces(Chars(e));
  }

  /** A string decodes exactly if it is spaces, characters of the alphabet and spaces; encoding the result
      gives the characters back. */
  lemma EncodeOfDecode(s: string)
    requires Decode(s).Some?
    ensures Digits(Decode(s).value, 256) && Encode(Decode(s).value) == Trimmed(s)
  {
    hide Zeros, Expand, Val, Encode, Run, IsSpace;
    var word := Trimmed(s);
    var d := DigitsOf(word);
    DigitsAndChars(word);
    OtherBase(d, 58, 256);
    EncodeIsChars(Decode(s).value);
  }

  /** Any string over the alphabet without spaces decodes, and its decoding encodes to it. */
  lemma AnyWordDecodes(s: string)
    requires Valid(s)
    ensures Decode(s).Some? && Encode(Decode(s).value) == s
  {
    DigitsAndChars(s);
    NoSpaces(s);
    hide Zeros, Expand, Val, Encode, IsSpace, Valid;
    assert Decode(s).Some?;
    EncodeOfDecode(s);
  }

  // ---------- the methods ----------

  /** Takes one more digit into the number in the buffer; the buffer is large enough for all of them. */
  method Absorb(b: array<nat>, base: nat, factor: nat, ghost done: seq<nat>, digit: nat, ghost n: nat)
    requires base > 1 && factor > 0 && digit < factor && Digits(b[..], base) && Digits(done, factor)
    requires Val(b[..], base) == Val(done, factor) && |done| < n && Pow(base, b.Length) >= Pow(factor, n)
    modifies b
    ensures Digits(b[..], base) && Val(b[..], base) == Val(done + [digit], factor)
  {
    hide Val, Pow;
    var carry := MulAdd(b, base, factor, digit);
    ValSnoc(done, digit, factor);
    ValBound(done + [digit], factor);
    PowMono(factor, |done| + 1, n);
    NoCarry(Val(b[..], base), carry, Pow(base, b.Length), Val(done + [digit], factor));
    assert carry == 0;
  }

  lemma ValSnoc(s: seq<nat>, d: nat, base: nat)
    ensures Val(s + [d], base) == base * Val(s, base) + d
  {
    assert (s + [d])[..|s|] == s;
  }

  lemma NoCarry(low: nat, carry: nat, p: nat, total: nat)
    requires low + carry * p == total && total < p
    ensures carry == 0 && low == total
  {
    assert carry >= 1 ==> carry * p >= p;
  }

  /** The digits in the buffer without its leading zeros. */
  method Significant(b: array<nat>, base: nat) returns (d: seq<nat>)
    requires base > 1 && Digits(b[..], base)
    ensures d == Expand(Val(b[..], base), base)
  {
    var it := 0;
    while it < b.Length && b[it] == 0
      invariant 0 <= it <= b.Length && forall i :: 0 <= i < it ==> b[i] == 0
    {
      it := it + 1;
    }
    d := b[it..];
    assert b[..][it..] == d;
    SkipZeros(b[..], base, it);
    ExpandVal(d, base);
  }

  method EncodeBase58(v: seq<Byte>) returns (s: string)
    ensures s == Encode(v)
  {
    hide Val, Pow, Expand, Chars;
    var zeroes := 0;
    while zeroes < |v| && v[zeroes] == 0
      invariant 0 <= zeroes <= |v| && forall i :: 0 <= i < zeroes ==> v[i] == 0
    {
      zeroes := zeroes + 1;
    }
    ZerosUnique(v, zeroes);
    SkipZeros(v, 256, zeroes);
    ghost var body: seq<nat> := v[zeroes..];
    EncodeFits(|body|);
    var b := new nat[(|v| - zeroes) * 138 / 100 + 1](_ => 0);
    ZeroBuffer(b[..], 58);
    EmptyVal(256);
    var k := zeroes;
    assert body[..0] == [];
    while k < |v|
      invariant zeroes <= k <= |v| && Digits(b[..], 58) && Val(b[..], 58) == Val(body[..k - zeroes], 256)
    {
      assert body[..k + 1 - zeroes] == body[..k - zeroes] + [v[k]];
      Absorb(b, 58, 256, body[..k - zeroes], v[k], |body|);
      k := k + 1;
    }
    assert body[..|body|] == body;
    var d := Significant(b, 58);
    ValExpand(Val(v, 256), 58);
    s := Repeat('1', zeroes);
    var j := 0;
    while j < |d|
      invariant 0 <= j <= |d| && s == Repeat('1', zeroes) + Chars(d[..j])
    {
      CharsNext(d, j);
      s := s + [CharOf(d[j])];
      j := j + 1;
    }
    assert d[..|d|] == d;
  }

  lemma CharsNext(d: seq<nat>, j: nat)
    requires Digits(d, 58) && j < |d|
    ensures Chars(d[..j + 1]) == Chars(d[..j]) + [CharOf(d[j])] && Chars([]) == []
  {
    assert d[..j + 1][..j] == d[..j];
  }

  lemma ZeroBuffer(s: seq<nat>, base: nat)
    requires base > 1 && forall i :: 0 <= i < |s| ==> s[i] == 0
    ensures Digits(s, base) && Val(s, base) == 0
  {
    SkipZeros(s, base, |s|);
    assert s[|s|..] == [];
  }

  lemma RunUnique(s: string, test: char -> bool, n: nat)
    requires n <= |s| && (forall i :: 0 <= i < n ==> test(s[i])) && (n < |s| ==> !test(s[n]))
    ensures Run(s, test) == n
  {
  }

  method SkipRun(s: string, from: nat, test: char -> bool) returns (i: nat)
    requires from <= |s|
    ensures from <= i <= |s| && i - from == Run(s[from..], test)
  {
    i := from;
    while i < |s| && test(s[i])
      invariant from <= i <= |s| && forall j :: 0 <= j < i - from ==> test(s[from..][j])
    {
      i := i + 1;
    }
    RunUnique(s[from..], test, i - from);
  }

  method FindDigit(c: char) returns (d: Option<nat>)
    ensures d == DigitOf(c)
  {
    for k: nat := 0 to 58
      invariant IndexFrom(c, k) == DigitOf(c)
    {
      if CharOf(k) == c {
        return Some(k);
      }
    }
    d := None;
  }

  /** The first k characters are read: leading ones, then the digits `done`. */
  ghost predicate ReadSoFar(t: string, zeroes: nat, k: nat, done: seq<nat>) {
    && zeroes <= k <= |t| && |done| == k - zeroes && Digits(done, 58)
    && (forall j :: 0 <= j < k ==> !IsSpace(t[j]) && DigitOf(t[j]).Some?)
    && (forall j :: zeroes <= j < k ==> DigitOf(t[j]).value == done[j - zeroes])
  }

  lemma ReadNext(t: string, zeroes: nat, k: nat, done: seq<nat>, d: nat)
    requires ReadSoFar(t, zeroes, k, done) && k < |t| && !IsSpace(t[k]) && DigitOf(t[k]) == Some(d)
    ensures d < 58 && ReadSoFar(t, zeroes, k + 1, done + [d])
  {
    hide DigitOf, IsSpace;
    DigitSmall(t[k]);
  }

  method DecodeBase58(s: string) returns (r: Option<seq<nat>>)
    ensures r == Decode(s)
  {
    hide Val, Pow, Expand, Run, DigitOf, IsSpace, Zeros, ReadSoFar, Decode, Digits;
    var start := SkipRun(s, 0, IsSpace);
    assert s[0..] == s;
    ghost var t := s[start..];
    var i := SkipRun(s, start, IsOne);
    var zeroes := i - start;
    ghost var n := |s| - i;
    DecodeFits(n);
    var b := new nat[(|s| - i) * 733 / 1000 + 1](_ => 0);
    ZeroBuffer(b[..], 256);
    EmptyVal(58);
    ghost var done: seq<nat> := [];
    OnesAreRead(t, zeroes);
    while i < |s| && !IsSpace(s[i])
      invariant start + zeroes <= i <= |s| && |done| == i - start - zeroes && Digits(done, 58)
      invariant ReadSoFar(t, zeroes, i - start, done)
      invariant Digits(b[..], 256) && Val(b[..], 256) == Val(done, 58)
    {
      var d := FindDigit(s[i]);
      assert s[i] == t[i - start];
      if d.None? {
        BadCharacter(s, t, zeroes, i - start, done);
        return None;
      }
      ReadNext(t, zeroes, i - start, done, d.value);
      Absorb(b, 256, 58, done, d.value, n);
      done := done + [d.value];
      ReadDigits(t, zeroes, i + 1 - start, done);
      i := i + 1;
    }
    WordIs(s, t, zeroes, i - start, done);
    var end := SkipRun(s, i, IsSpace);
    assert s[i..] == t[i - start..];
    if end != |s| {
      return None;
    }
    var body := Significant(b, 256);
    r := Some(Repeat(0, zeroes) + body);
  }

  lemma ReadDigits(t: string, zeroes: nat, k: nat, done: seq<nat>)
    requires ReadSoFar(t, zeroes, k, done)
    ensures |done| == k - zeroes && Digits(done, 58)
  {
  }

  predicate IsOne(c: char) {
    c == '1'
  }

  lemma OnesAreRead(t: string, zeroes: nat)
    requires zeroes == Run(t, IsOne)
    ensures ReadSoFar(t, zeroes, zeroes, []) && Digits([], 58)
  {
    CharFacts(0);
  }

  lemma DigitSmall(c: char)
    ensures DigitOf(c).Some? ==> DigitOf(c).value < 58
  {
    IndexRight(c, 0);
  }

  lemma BadCharacter(s: string, t: string, zeroes: nat, k: nat, done: seq<nat>)
    requires t == s[Run(s, IsSpace)..] && k < |t| && !IsSpace(t[k]) && DigitOf(t[k]).None?
    requires ReadSoFar(t, zeroes, k, done)
    ensures Decode(s) == None
  {
    hide DigitOf, IsSpace, Run, ReadSoFar, Trimmed, DigitsOf, Expand, Val, Repeat, Zeros;
    WordReaches(s, t, zeroes, k, done);
    assert !Valid(Trimmed(s));
  }

  lemma WordReaches(s: string, t: string, zeroes: nat, k: nat, done: seq<nat>)
    requires t == s[Run(s, IsSpace)..] && k < |t| && !IsSpace(t[k]) && ReadSoFar(t, zeroes, k, done)
    ensures k < |Trimmed(s)| && Trimmed(s)[k] == t[k]
  {
    hide DigitOf, IsSpace;
    assert Word(t) > k;
  }

  /** Where reading stops the word ends; its leading ones are the leading zeros of its digits. */
  lemma WordIs(s: string, t: string, zeroes: nat, k: nat, done: seq<nat>)
    requires t == s[Run(s, IsSpace)..] && k <= |t| && (k < |t| ==> IsSpace(t[k]))
    requires ReadSoFar(t, zeroes, k, done) && zeroes == Run(t, IsOne)
    ensures Decode(s) ==
      if Run(t[k..], IsSpace) != |t[k..]| then None else Some(Repeat(0, zeroes) + Expand(Val(done, 58), 256))
  {
    hide DigitOf, Val, Expand, Zeros, IsSpace;
    RunUnique(t, c => !IsSpace(c), k);
    assert zeroes < |t| ==> t[zeroes] != '1';
    assert forall j :: 0 <= j < zeroes ==> t[j] == '1';
    hide Run;
    LeadingOnes(t[..k], zeroes, done);
  }

  lemma LeadingOnes(word: string, zeroes: nat, done: seq<nat>)
    requires Valid(word) && zeroes <= |word| && |done| == |word| - zeroes
    requires forall j :: 0 <= j < zeroes ==> word[j] == '1'
    requires zeroes < |word| ==> word[zeroes] != '1'
    requires forall j :: zeroes <= j < |word| ==> DigitOf(word[j]).value == done[j - zeroes]
    ensures Zeros(DigitsOf(word)) == zeroes && Val(DigitsOf(word), 58) == Val(done, 58)
  {
    hide DigitOf, Val, DigitsOf, Zeros, IsSpace;
    var d := DigitsOf(word);
    DigitsAndChars(word);
    ZerosUnique(d, zeroes);
    SkipZeros(d, 58, zeroes);
    assert d[zeroes..] == done;
  }

  // ---------- with a checksum ----------

  /** A hash of the bytes, of which the first four are kept. */
  type Checksum = seq<nat> -> seq<nat>

  ghost predicate IsChecksum(check: Checksum) {
    forall v :: |check(v)| == 4 && Digits(check(v), 256)
  }

  method EncodeBase58Check(check: Checksum, v: seq<Byte>) returns (s: string)
    requires IsChecksum(check)
    ensures s == Encode(v + check(v))
  {
    s := EncodeBase58(v + check(v));
  }

  /** Of the bytes d, the last four are the checksum of the others; which others is no question. */
  lemma CheckedSplit(check: Checksum, d: seq<nat>, v: seq<nat>)
    requires IsChecksum(check)
    ensures d == v + check(v) <==> |d| >= 4 && v == d[..|d| - 4] && check(v) == d[|d| - 4..]
  {
    assert |check(v)| == 4;
    if |d| >= 4 {
      assert d == d[..|d| - 4] + d[|d| - 4..];
    }
  }

  /** It accepts exactly the encodings of a byte string with its checksum, apart from spaces around them. */
  method DecodeBase58Check(check: Checksum, s: string) returns (r: Option<seq<nat>>)
    requires IsChecksum(check)
    ensures r.Some? ==> Digits(r.value, 256) && Trimmed(s) == Encode(r.value + check(r.value))
    ensures forall v :: Digits(v, 256) && s == Encode(v + check(v)) ==> r == Some(v)
  {
    hide Decode, Encode, Trimmed;
    var d := DecodeBase58(s);
    r := None;
    if d.Some? && |d.value| >= 4 {
      var v := d.value[..|d.value| - 4];
      CheckedSplit(check, d.value, v);
      EncodeOfDecode(s);
      if check(v) == d.value[|d.value| - 4..] {
        r := Some(v);
      }
    }
    hide Digits;
    forall v | Digits(v, 256) && s == Encode(v + check(v)) ensures r == Some(v) {
      CheckedAccepted(check, s, v, d);
    }
  }

  lemma CheckedAccepted(check: Checksum, s: string, v: seq<nat>, d: Option<seq<nat>>)
    requires IsChecksum(check) && Digits(v, 256) && s == Encode(v + check(v)) && d == Decode(s)
    ensures d.Some? && |d.value| >= 4 && v == d.value[..|d.value| - 4] && check(v) == d.value[|d.value| - 4..]
  {
    hide Decode, Encode;
    assert |check(v)| == 4 && Digits(check(v), 256);
    DecodeOfEncode(v + check(v));
    CheckedSplit(check, v + check(v), v);
  }
}
