/** Shifts, comparison, bit length and division of limb integers (src/arith_uint256.cpp). */
module ArithShift {
  import opened Base
  import opened Powers
  import opened Arith

  // ---------- bits of one limb ----------

  lemma {:induction false} Pow2Add(m: nat, n: nat)
    ensures Pow2(m + n) == Pow2(m) * Pow2(n)
  {
    if m > 0 {
      Pow2Add(m - 1, n);
      assert Pow2(m + n) == 2 * Pow2(m - 1 + n);
    }
  }

  lemma Pow2Limb()
    ensures Pow2(32) == LIMB
  {
    assert Pow2(8) == 256;
    Pow2Add(8, 8);
    Pow2Add(16, 16);
  }

  lemma {:induction false} Pow2P(k: nat, s: nat)
    ensures Pow2(32 * k + s) == Pow2(s) * P(k)
  {
    if k == 0 {
      PNext(0);
    } else {
      Pow2P(k - 1, s);
      Pow2Add(32, 32 * (k - 1) + s);
      Pow2Limb();
      PNext(k - 1);
      assert LIMB * (Pow2(s) * P(k - 1)) == Pow2(s) * (P(k - 1) * LIMB);
    }
  }

  lemma {:induction false} Pow2Mono(m: nat, n: nat)
    requires m <= n
    ensures Pow2(m) <= Pow2(n)
  {
    if m < n {
      Pow2Mono(m, n - 1);
    }
  }

  /** Bitwise or. */
  function Or(x: nat, y: nat): nat
    decreases x + y
  {
    if x == 0 && y == 0 then 0
    else (if x % 2 == 1 || y % 2 == 1 then 1 else 0) + 2 * Or(x / 2, y / 2)
  }

  lemma {:induction false} OrZero(y: nat)
    ensures Or(0, y) == y
  {
    if y > 0 {
      OrZero(y / 2);
    }
  }

  lemma {:induction false} OrSwap(x: nat, y: nat)
    ensures Or(x, y) == Or(y, x)
    decreases x + y
  {
    if x > 0 || y > 0 {
      OrSwap(x / 2, y / 2);
    }
  }

  lemma OrHalved(x: nat, y: nat)
    ensures Or(x, 2 * y) == x % 2 + 2 * Or(x / 2, y)
  {
  }

  /** Bits that do not overlap are simply added. */
  lemma {:induction false} OrDisjoint(x: nat, q: nat, s: nat)
    requires x < Pow2(s)
    ensures Or(x, Pow2(s) * q) == Or(Pow2(s) * q, x) == x + Pow2(s) * q
  {
    hide Or;
    OrSwap(x, Pow2(s) * q);
    if s == 0 {
      OrZero(q);
    } else {
      var y := Pow2(s - 1) * q;
      TimesAssoc(2, Pow2(s - 1), q);
      assert Pow2(s) * q == 2 * y;
      OrDisjoint(x / 2, q, s - 1);
      OrHalved(x, y);
    }
  }

  /** Shifting a limb, which drops bits on either side. */
  function Shr(c: nat, n: nat): nat {
    DivMod(c, Pow2(n));
    c / Pow2(n)
  }

  function Shl(c: nat, n: nat): (r: nat)
    ensures r < LIMB
  {
    c * Pow2(n) % LIMB
  }

  /** What a limb c shifted left by s bits leaves in its own limb and moves into the next. */
  lemma SplitLeft(c: nat, s: nat) returns (q: nat)
    requires c < LIMB && s < 32
    ensures Shl(c, s) == Pow2(s) * q && Shr(c, 32 - s) < Pow2(s)
    ensures c * Pow2(s) == Shl(c, s) + Shr(c, 32 - s) * LIMB
  {
    Pow2Limb();
    Pow2Add(s, 32 - s);
    hide Pow2;
    q := SplitBy(c, Pow2(s), Pow2(32 - s));
  }

  lemma SplitBy(c: nat, p: nat, t: nat) returns (q: nat)
    requires p > 0 && t > 0 && p * t == LIMB && c < LIMB
    ensures c * p % LIMB == p * q && c / t < p && c * p == c * p % LIMB + c / t * LIMB && q == c % t
  {
    DivMod(c, t);
    q := c % t;
    var hi := c / t;
    SplitArithmetic(c, p, t, hi, q);
    ModUnique(p * q, hi, c * p, LIMB);
  }

  lemma SplitArithmetic(c: nat, p: nat, t: nat, hi: nat, q: nat)
    requires p > 0 && t > 0 && p * t == LIMB && c == hi * t + q && q < t && c < LIMB
    ensures c * p == p * q + hi * LIMB && p * q < LIMB && hi < p
  {
    assert (hi * t + q) * p == hi * (p * t) + p * q by {
      Distribute(hi * t, q, p);
      assert hi * t * p == hi * (p * t);
    }
    assert p * (q + 1) <= p * t by { TimesMono(p, p, q + 1, t); }
    assert p * (q + 1) == p * q + p;
    assert hi >= p ==> hi * t >= p * t;
  }

  // ---------- shifting left ----------

  /** Before limb i is shifted in by k limbs and s bits: nothing above its place, few bits in it. */
  ghost predicate LeftReady(p: seq<nat>, i: nat, k: nat, s: nat) {
    && Limbs(p)
    && (forall m :: i + k < m < |p| ==> p[m] == 0)
    && (i + k < |p| ==> p[i + k] < Pow2(s))
  }

  function LeftHigh(p: seq<nat>, at: nat, s: nat, c: nat): seq<nat> {
    if at < |p| && s != 0 && s < 32 then p[at := Or(p[at], Shr(c, 32 - s))] else p
  }

  function LeftLow(p: seq<nat>, at: nat, s: nat, c: nat): seq<nat> {
    if at < |p| then p[at := Or(p[at], Shl(c, s))] else p
  }

  lemma LeftStep(p: seq<nat>, i: nat, k: nat, s: nat, c: nat) returns (over: nat)
    requires LeftReady(p, i, k, s) && s < 32 && c < LIMB
    ensures var p' := LeftLow(LeftHigh(p, i + k + 1, s, c), i + k, s, c);
      |p'| == |p| && LeftReady(p', i + 1, k, s) && Val(p') + At(over, |p|) == Val(p) + At(c * Pow2(s), i + k)
  {
    hide Val, P, Or;
    var q := SplitLeft(c, s);
    var at := i + k;
    var lo: nat, hi: nat := Shl(c, s), Shr(c, 32 - s);
    HighIsNone(c, s);
    SmallBits(s, hi);
    if at < |p| {
      var p1 := LeftHigh(p, at + 1, s, c);
      if at + 1 < |p| {
        OrZero(hi);
        ValUpdate(p, at + 1, hi);
        assert p1 == p[at + 1 := hi];
        over := 0;
      } else {
        over := hi;
      }
      OrDisjoint(p[at], q, s);
      ValUpdate(p1, at, p[at] + lo);
      LimbSum(p[at], q, s, lo);
      ColumnSplit(c * Pow2(s), lo, hi, at);
    } else {
      over := c * Pow2(s) * P(at - |p|);
      PAdd(at - |p|, |p|);
      assert c * Pow2(s) * P(at - |p|) * P(|p|) == c * Pow2(s) * P(at);
    }
  }

  lemma HighIsNone(c: nat, s: nat)
    requires c < LIMB
    ensures s == 0 ==> Shr(c, 32 - s) == 0
  {
    Pow2Limb();
  }

  lemma SmallBits(s: nat, hi: nat)
    requires s < 32
    ensures Pow2(s) <= LIMB
  {
    Pow2Limb();
    Pow2Mono(s, 32);
  }

  /** The low bits and the bits above them make up less than a limb. */
  lemma LimbSum(x: nat, q: nat, s: nat, lo: nat)
    requires x < Pow2(s) && s < 32 && lo == Pow2(s) * q < LIMB
    ensures x + lo < LIMB
  {
    Pow2Limb();
    Pow2Add(s, 32 - s);
    BelowMultiple(x, Pow2(s), q, Pow2(32 - s));
  }

  lemma BelowMultiple(x: nat, p: nat, q: nat, t: nat)
    requires x < p && p * q < p * t
    ensures x + p * q < p * t
  {
    assert q >= t ==> p * q >= p * t;
    TimesMono(p, p, q + 1, t);
    assert p * (q + 1) == p * q + p;
  }

  lemma ColumnSplit(n: nat, lo: nat, hi: nat, k: nat)
    requires n == lo + hi * LIMB
    ensures At(n, k) == At(lo, k) + At(hi, k + 1)
  {
    PNext(k);
    Distribute(lo, hi * LIMB, P(k));
    assert hi * LIMB * P(k) == hi * (P(k) * LIMB);
  }

  method Copy(a: array<nat>) returns (r: array<nat>)
    ensures fresh(r) && r[..] == a[..]
  {
    r := new nat[a.Length];
    for i: nat := 0 to a.Length
      invariant forall j :: 0 <= j < i ==> r[j] == a[j]
    {
      r[i] := a[i];
    }
  }

  method Clear(p: array<nat>)
    modifies p
    ensures forall i :: 0 <= i < p.Length ==> p[i] == 0
  {
    for i: nat := 0 to p.Length
      invariant forall j :: 0 <= j < i ==> p[j] == 0
    {
      p[i] := 0;
    }
  }

  ghost function Scaled(v: int, s: nat, k: nat): int {
    v * Pow2(s) * P(k)
  }

  lemma ScaledNext(a: seq<nat>, i: nat, s: nat, k: nat)
    requires i < |a|
    ensures Scaled(Val(a[..i + 1]), s, k) == Scaled(Val(a[..i]), s, k) + At(a[i] * Pow2(s), i + k)
  {
    hide P, Val;
    ValSnoc(a, i);
    PAdd(i, k);
    ScaledArithmetic(Val(a[..i]), a[i], P(i), Pow2(s), P(k));
  }

  lemma ScaledArithmetic(v: int, d: int, p: int, t: int, q: int)
    ensures (v + d * p) * t * q == v * t * q + d * t * (p * q)
  {
    Distribute(v, d * p, t);
    Distribute(v * t, d * p * t, q);
    assert d * p * t * q == d * t * (p * q);
  }

  lemma ScaledStart(s: nat, k: nat, w: nat)
    ensures Scaled(Val([]), s, k) == 0 && At(0, w) == 0
  {
  }

  lemma LeftStart(p: seq<nat>, k: nat, s: nat)
    requires forall i :: 0 <= i < |p| ==> p[i] == 0
    ensures LeftReady(p, 0, k, s) && Val(p) == 0
  {
    ZeroVal(p);
  }

  method ShiftLeft(p: array<nat>, shift: nat)
    requires Limbs(p[..])
    modifies p
    ensures Limbs(p[..]) && Val(p[..]) == Val(old(p[..])) * Pow2(shift) % P(p.Length)
  {
    hide Val, P, At, Or, Shl, Shr, Scaled, LeftReady;
    ghost var a0, w := p[..], p.Length;
    var a := Copy(p);
    Clear(p);
    var k: nat, s: nat := shift / 32, shift % 32;
    LeftStart(p[..], k, s);
    ScaledStart(s, k, w);
    ghost var over: nat := 0;
    for i: nat := 0 to p.Length
      invariant a[..] == a0 && LeftReady(p[..], i, k, s)
      invariant Val(p[..]) + At(over, w) == Scaled(Val(a0[..i]), s, k)
    {
      ghost var before := p[..];
      assert a[i] == a0[i];
      ghost var more := LeftStep(before, i, k, s, a[i]);
      if i + k + 1 < p.Length && s != 0 {
        p[i + k + 1] := Or(p[i + k + 1], Shr(a[i], 32 - s));
      }
      assert p[..] == LeftHigh(before, i + k + 1, s, a[i]);
      ghost var middle := p[..];
      if i + k < p.Length {
        p[i + k] := Or(p[i + k], Shl(a[i], s));
      }
      assert p[..] == LeftLow(middle, i + k, s, a[i]);
      ScaledNext(a0, i, s, k);
      AtAdd(over, more, w);
      over := over + more;
    }
    assert a0[..w] == a0;
    LeftDone(p[..], w, k, s, Val(a0), over);
  }

  lemma TimesAssoc(x: int, y: int, z: int)
    ensures x * y * z == x * (y * z)
  {
  }

  lemma LeftDone(p: seq<nat>, w: nat, k: nat, s: nat, v: nat, over: nat)
    requires LeftReady(p, w, k, s) && |p| == w && Val(p) + At(over, w) == Scaled(v, s, k)
    ensures Limbs(p) && Val(p) == v * Pow2(32 * k + s) % P(w)
  {
    hide P, Val, Pow2;
    Pow2P(k, s);
    ValBound(p);
    TimesAssoc(v, Pow2(s), P(k));
    ModUnique(Val(p), over, v * Pow2(32 * k + s), P(w));
  }

  // ---------- shifting right ----------

  /** Before limb i is shifted out by k limbs and s bits. */
  ghost predicate RightReady(p: seq<nat>, i: nat, k: nat, s: nat)
    requires s < 32
  {
    && Limbs(p)
    && (forall m: nat :: i - k <= m < |p| ==> p[m] == 0)
    && (0 <= i - k - 1 < |p| ==> p[i - k - 1] < Pow2(32 - s))
  }

  function RightLow(p: seq<nat>, at: int, s: nat, c: nat): seq<nat> {
    if 0 <= at < |p| && s != 0 && s < 32 then p[at := Or(p[at], Shl(c, 32 - s))] else p
  }

  function RightHigh(p: seq<nat>, at: int, s: nat, c: nat): seq<nat> {
    if 0 <= at < |p| then p[at := Or(p[at], Shr(c, s))] else p
  }

  /** What a limb c shifted right by s bits leaves in its own limb and moves into the one below. */
  lemma SplitRight(c: nat, s: nat) returns (q: nat)
    requires c < LIMB && s < 32
    ensures Shl(c, 32 - s) == Pow2(32 - s) * q && q < Pow2(s) && Shr(c, s) < Pow2(32 - s) && c == Shr(c, s) * Pow2(s) + q
  {
    Pow2Limb();
    Pow2Add(32 - s, s);
    hide Pow2;
    DivMod(c, Pow2(s));
    q := SplitBy(c, Pow2(32 - s), Pow2(s));
  }

  /** What has been shifted out so far is less than one unit of the result. */
  ghost predicate SmallRest(i: nat, k: nat, s: nat, v: nat, rest: nat) {
    if i <= k then v == 0 && rest < P(i) else rest < Pow2(s) * P(k)
  }

  lemma RightStep(p: seq<nat>, i: nat, k: nat, s: nat, c: nat, rest: nat) returns (rest': nat)
    requires s < 32 && RightReady(p, i, k, s) && i < |p| && c < LIMB && SmallRest(i, k, s, Val(p), rest)
    ensures var p' := RightHigh(RightLow(p, i - k - 1, s, c), i - k, s, c);
      && |p'| == |p| && RightReady(p', i + 1, k, s) && SmallRest(i + 1, k, s, Val(p'), rest')
      && Scaled(Val(p'), s, k) + rest' == Scaled(Val(p), s, k) + rest + At(c, i)
  {
    if i < k {
      PNext(i);
      rest' := rest + c * P(i);
      BoundStep(rest, c, P(i));
    } else if i == k {
      rest' := RightFirst(p, k, s, c, rest);
    } else {
      RightLater(p, i, k, s, c);
      rest' := rest;
    }
  }

  lemma RightFirst(p: seq<nat>, k: nat, s: nat, c: nat, rest: nat) returns (rest': nat)
    requires s < 32 && RightReady(p, k, k, s) && k < |p| && c < LIMB && Val(p) == 0 && rest < P(k)
    ensures var p' := RightHigh(p, 0, s, c);
      && RightReady(p', k + 1, k, s) && rest' < Pow2(s) * P(k)
      && Scaled(Val(p'), s, k) + rest' == Scaled(Val(p), s, k) + rest + At(c, k)
  {
    hide Val, P, Or, Shr, Shl, Pow2;
    var q := SplitRight(c, s);
    var hi := Shr(c, s);
    rest' := rest + q * P(k);
    OrZero(hi);
    ValUpdate(p, 0, hi);
    ValEmpty();
    UpperBits(s);
    FirstArithmetic(hi, q, Pow2(s), P(k), c, rest);
  }

  lemma FirstArithmetic(hi: nat, q: nat, t: nat, p: nat, c: nat, rest: nat)
    requires c == hi * t + q && q < t && rest < p
    ensures c * p == hi * t * p + q * p && rest + q * p < t * p
  {
    Distribute(hi * t, q, p);
    TimesMono(q + 1, t, p, p);
    Distribute(q, 1, p);
  }

  lemma UpperBits(s: nat)
    requires s < 32
    ensures Pow2(32 - s) <= LIMB
  {
    Pow2Limb();
    Pow2Mono(32 - s, 32);
  }

  lemma RightLater(p: seq<nat>, i: nat, k: nat, s: nat, c: nat)
    requires s < 32 && RightReady(p, i, k, s) && k < i < |p| && c < LIMB
    ensures var p' := RightHigh(RightLow(p, i - k - 1, s, c), i - k, s, c);
      && |p'| == |p| && RightReady(p', i + 1, k, s) && Scaled(Val(p'), s, k) == Scaled(Val(p), s, k) + At(c, i)
  {
    hide Val, P, Or, Shr, Shl;
    var q := SplitRight(c, s);
    var hi, lo: nat, at := Shr(c, s), Pow2(32 - s) * q, i - k;
    UpperBits(s);
    var p1 := RightLow(p, at - 1, s, c);
    if s != 0 {
      OrDisjoint(p[at - 1], q, 32 - s);
      ValUpdate(p, at - 1, p[at - 1] + lo);
      LowerSum(p[at - 1], q, s, lo);
    } else {
      assert lo == 0 && p1 == p;
    }
    assert Val(p1) == Val(p) + lo * P(at - 1);
    OrZero(hi);
    ValUpdate(p1, at, hi);
    LaterArithmetic(Val(p), hi, q, s, at, k, c);
  }

  lemma LowerSum(x: nat, q: nat, s: nat, lo: nat)
    requires 0 < s < 32 && x < Pow2(32 - s) && lo == Pow2(32 - s) * q && q < Pow2(s)
    ensures x + lo < LIMB
  {
    Pow2Limb();
    Pow2Add(32 - s, s);
    BelowProduct(x, Pow2(32 - s), q, Pow2(s));
  }

  lemma BelowProduct(x: nat, p: nat, q: nat, t: nat)
    requires x < p && q < t
    ensures x + p * q < p * t
  {
    TimesMono(p, p, q + 1, t);
    assert p * (q + 1) == p * q + p;
  }

  lemma LaterArithmetic(v: nat, hi: nat, q: nat, s: nat, at: nat, k: nat, c: nat)
    requires s < 32 && at > 0 && c == hi * Pow2(s) + q
    ensures Scaled(v + Pow2(32 - s) * q * P(at - 1) + hi * P(at), s, k) == Scaled(v, s, k) + At(c, at + k)
  {
    Pow2Limb();
    Pow2Add(32 - s, s);
    PNext(at - 1);
    PAdd(at, k);
    hide P, Pow2;
    ScaledArithmetic2(v, hi, q, Pow2(s), Pow2(32 - s), P(at - 1), P(at), P(k));
    Distribute(hi * Pow2(s), q, P(at) * P(k));
  }

  lemma ScaledArithmetic2(v: nat, hi: nat, q: nat, t: nat, u: nat, p: nat, p': nat, r: nat)
    requires u * t == LIMB && p' == p * LIMB
    ensures (v + u * q * p + hi * p') * t * r == v * t * r + (hi * t * (p' * r) + q * (p' * r))
  {
    assert u * q * p * t == q * p' by {
      assert u * q * p * t == u * t * (q * p);
      assert LIMB * (q * p) == q * (p * LIMB);
    }
    assert hi * p' * t == hi * t * p';
    Distribute(v, u * q * p, t);
    Distribute(v + u * q * p, hi * p', t);
    Distribute(v * t, q * p', r);
    Distribute(v * t + q * p', hi * t * p', r);
    assert q * p' * r == q * (p' * r);
    assert hi * t * p' * r == hi * t * (p' * r);
  }

  lemma RightStart(p: seq<nat>, k: nat, s: nat)
    requires s < 32 && forall i :: 0 <= i < |p| ==> p[i] == 0
    ensures RightReady(p, 0, k, s) && SmallRest(0, k, s, Val(p), 0) && Scaled(Val(p), s, k) == 0
  {
    ZeroVal(p);
    PNext(0);
  }

  method ShiftRight(p: array<nat>, shift: nat)
    requires Limbs(p[..])
    modifies p
    ensures Limbs(p[..]) && Val(p[..]) == Val(old(p[..])) / Pow2(shift)
  {
    hide Val, P, At, Or, Shl, Shr, Scaled, RightReady, SmallRest;
    ghost var a0, w := p[..], p.Length;
    var a := Copy(p);
    Clear(p);
    var k: nat, s: nat := shift / 32, shift % 32;
    RightStart(p[..], k, s);
    ValEmpty();
    ghost var rest: nat := 0;
    for i: nat := 0 to p.Length
      invariant a[..] == a0 && RightReady(p[..], i, k, s) && SmallRest(i, k, s, Val(p[..]), rest)
      invariant Scaled(Val(p[..]), s, k) + rest == Val(a0[..i])
    {
      ghost var before := p[..];
      assert a[i] == a0[i];
      rest := RightStep(before, i, k, s, a[i], rest);
      if i - k - 1 >= 0 && s != 0 {
        p[i - k - 1] := Or(p[i - k - 1], Shl(a[i], 32 - s));
      }
      assert p[..] == RightLow(before, i - k - 1, s, a[i]);
      ghost var middle := p[..];
      if i - k >= 0 {
        p[i - k] := Or(p[i - k], Shr(a[i], s));
      }
      assert p[..] == RightHigh(middle, i - k, s, a[i]);
      ValNext(a0, i);
    }
    assert a0[..w] == a0;
    RightDone(p[..], w, k, s, a0, rest);
  }

  lemma ValNext(a: seq<nat>, i: nat)
    requires i < |a|
    ensures Val(a[..i + 1]) == Val(a[..i]) + At(a[i], i)
  {
    ValSnoc(a, i);
  }

  lemma RightDone(p: seq<nat>, w: nat, k: nat, s: nat, a: seq<nat>, rest: nat)
    requires s < 32 && |p| == w && RightReady(p, w, k, s) && SmallRest(w, k, s, Val(p), rest)
    requires Scaled(Val(p), s, k) + rest == Val(a)
    ensures Limbs(p) && Val(p) == Val(a) / Pow2(32 * k + s)
  {
    hide Val, P, Pow2;
    Pow2P(k, s);
    RestBelowUnit(w, k, s, Val(p), rest);
    Assoc(Val(p), Pow2(s), P(k));
    Quotient(Val(a), Pow2(32 * k + s), Val(p), rest);
  }

  lemma Assoc(a: int, b: int, c: int)
    ensures a * b * c == a * (b * c)
  {
  }

  lemma RestBelowUnit(w: nat, k: nat, s: nat, v: nat, rest: nat)
    requires SmallRest(w, k, s, v, rest)
    ensures rest < Pow2(s) * P(k)
  {
    if w <= k {
      PowMono(LIMB, w, k);
      TimesMono(1, Pow2(s), P(k), P(k));
    }
  }

  lemma Quotient(n: nat, d: nat, q: nat, r: nat)
    requires n == q * d + r && r < d
    ensures n / d == q
  {
    DivMod(n, d);
    var k := n / d - q;
    UpdateStep(n / d, q, d);
    assert k >= 1 ==> k * d >= d;
    assert k <= -1 ==> k * d + d <= 0;
  }

  // ---------- comparing ----------

  method CompareTo(a: array<nat>, b: array<nat>) returns (r: int)
    requires a.Length == b.Length && Limbs(a[..]) && Limbs(b[..])
    ensures r == if Val(a[..]) < Val(b[..]) then -1 else if Val(a[..]) > Val(b[..]) then 1 else 0
  {
    hide Val;
    var i: nat := a.Length;
    while i > 0
      invariant i <= a.Length && a[i..] == b[i..]
    {
      i := i - 1;
      if a[i] < b[i] {
        HigherLimb(a[..], b[..], i);
        return -1;
      }
      if a[i] > b[i] {
        HigherLimb(b[..], a[..], i);
        return 1;
      }
      assert a[i..] == [a[i]] + a[i + 1..] && b[i..] == [b[i]] + b[i + 1..];
    }
    assert a[..] == a[0..] == b[0..] == b[..];
    return 0;
  }

  lemma HigherLimb(s: seq<nat>, t: seq<nat>, i: nat)
    requires i < |s| == |t| && Limbs(s) && Limbs(t) && s[i] < t[i] && s[i + 1..] == t[i + 1..]
    ensures Val(s) < Val(t)
  {
    hide Val, P;
    ValSplit(s, i + 1);
    ValSplit(t, i + 1);
    ValSnoc(s, i);
    ValSnoc(t, i);
    ValBound(s[..i]);
    TimesMono(s[i] + 1, t[i], P(i), P(i));
    Distribute(s[i], 1, P(i));
  }

  // ---------- the number of bits ----------

  /** The position of the highest bit that is set, plus one. */
  ghost predicate IsBitLength(v: nat, n: nat) {
    v < Pow2(n) && (n > 0 ==> v >= Pow2(n - 1))
  }

  lemma HighestBit(x: nat, b: nat)
    requires x < Pow2(b + 1)
    ensures x / Pow2(b) % 2 == 1 <==> x >= Pow2(b)
  {
    hide Pow2;
    DoublePow(b);
    if x >= Pow2(b) {
      Quotient(x, Pow2(b), 1, x - Pow2(b));
    } else {
      Quotient(x, Pow2(b), 0, x);
    }
  }

  lemma DoublePow(b: nat)
    ensures Pow2(b + 1) == 2 * Pow2(b)
  {
  }

  method Bits(a: array<nat>) returns (n: nat)
    requires Limbs(a[..])
    ensures IsBitLength(Val(a[..]), n) && n <= 32 * a.Length
  {
    hide Val, Pow2, IsBitLength;
    var pos := a.Length;
    while pos > 0
      invariant 0 <= pos <= a.Length && forall i :: pos <= i < a.Length ==> a[i] == 0
    {
      pos := pos - 1;
      if a[pos] != 0 {
        Pow2Limb();
        var bits: nat := 31;
        while bits > 0
          invariant bits <= 31 && a[pos] < Pow2(bits + 1)
        {
          HighestBit(a[pos], bits);
          if a[pos] / Pow2(bits) % 2 == 1 {
            TopLimb(a[..], pos, bits);
            return 32 * pos + bits + 1;
          }
          bits := bits - 1;
        }
        OneBit();
        TopLimb(a[..], pos, 0);
        return 32 * pos + 1;
      }
    }
    ZeroVal(a[..]);
    ZeroBits();
    n := 0;
  }

  lemma OneBit()
    ensures Pow2(0) == 1 && Pow2(1) == 2
  {
  }

  lemma ZeroBits()
    ensures IsBitLength(0, 0)
  {
  }

  lemma TopLimb(s: seq<nat>, pos: nat, b: nat)
    requires pos < |s| && Limbs(s) && (forall i :: pos < i < |s| ==> s[i] == 0)
    requires Pow2(b) <= s[pos] < Pow2(b + 1)
    ensures IsBitLength(Val(s), 32 * pos + b + 1)
  {
    hide Val, P, Pow2;
    ValSplit(s, pos + 1);
    ZeroVal(s[pos + 1..]);
    ValSnoc(s, pos);
    ValBound(s[..pos]);
    Pow2P(pos, b);
    Pow2P(pos, b + 1);
    TimesMono(s[pos] + 1, Pow2(b + 1), P(pos), P(pos));
    TimesMono(Pow2(b), s[pos], P(pos), P(pos));
    Distribute(s[pos], 1, P(pos));
    assert 32 * pos + (b + 1) == 32 * pos + b + 1;
  }

  // ---------- division ----------

  /** The quotient so far has no bit at or below position n. */
  ghost predicate ClearBelow(p: seq<nat>, n: int) {
    && Limbs(p)
    && (0 <= n ==> forall m :: 0 <= m < |p| && m < n / 32 ==> p[m] == 0)
    && (0 <= n < 32 * |p| ==> IsMultiple(p[n / 32], Pow2(n % 32 + 1)))
  }

  function Multiple(t: nat, q: nat): nat {
    t * q
  }

  ghost predicate IsMultiple(x: nat, t: nat) {
    exists q: nat :: x == Multiple(t, q)
  }

  lemma ZeroIsMultiple(t: nat)
    ensures IsMultiple(0, t)
  {
    assert 0 == Multiple(t, 0);
  }

  lemma LimbBits(r: nat)
    requires r < 32
    ensures Pow2(r) < Pow2(r + 1) <= LIMB
  {
    Pow2Limb();
    Pow2Mono(r + 1, 32);
  }

  lemma SetBit(p: seq<nat>, n: nat)
    requires ClearBelow(p, n) && n < 32 * |p|
    ensures var p' := p[n / 32 := Or(p[n / 32], Pow2(n % 32))];
      ClearBelow(p', n - 1) && Val(p') == Val(p) + Pow2(n)
  {
    hide Val, P, Or, Pow2;
    var m, r := n / 32, n % 32;
    var q := MultipleAt(p, n);
    LimbBits(r);
    OrDisjoint(Pow2(r), q, r + 1);
    ValUpdate(p, m, p[m] + Pow2(r));
    Pow2P(m, r);
    DoublePow(r);
    BitFits(p[m], q, r);
    var q' := 2 * q + 1;
    assert Pow2(r + 1) * q + Pow2(r) == Pow2(r) * q';
    ClearNext(p, n, q', Or(p[m], Pow2(r)));
  }

  lemma BitFits(x: nat, q: nat, r: nat)
    requires r < 32 && x == Pow2(r + 1) * q < LIMB
    ensures x + Pow2(r) < LIMB
  {
    hide Pow2;
    LimbBits(r);
    Pow2Limb();
    Pow2Add(r + 1, 31 - r);
    BelowMultiple(Pow2(r), Pow2(r + 1), q, Pow2(31 - r));
  }

  lemma MultipleAt(p: seq<nat>, n: nat) returns (q: nat)
    requires ClearBelow(p, n) && n < 32 * |p|
    ensures p[n / 32] == Pow2(n % 32 + 1) * q
  {
    q :| p[n / 32] == Multiple(Pow2(n % 32 + 1), q);
  }

  lemma ClearNext(p: seq<nat>, n: nat, q: nat, d: nat)
    requires ClearBelow(p, n) && n < 32 * |p| && d == Pow2(n % 32) * q < LIMB
    ensures ClearBelow(p[n / 32 := d], n - 1)
  {
    hide Pow2;
    assert d == Multiple(Pow2(n % 32), q);
    if n > 0 && n % 32 == 0 {
      ZeroIsMultiple(Pow2((n - 1) % 32 + 1));
    }
  }

  lemma SkipBit(p: seq<nat>, n: nat)
    requires ClearBelow(p, n) && n < 32 * |p|
    ensures ClearBelow(p, n - 1)
  {
    hide Pow2;
    var q := MultipleAt(p, n);
    DoublePow(n % 32);
    assert p[n / 32] == Pow2(n % 32) * (2 * q);
    ClearNext(p, n, 2 * q, p[n / 32]);
    assert p[n / 32 := p[n / 32]] == p;
  }

  lemma ClearStart(p: seq<nat>, n: int)
    requires forall i :: 0 <= i < |p| ==> p[i] == 0
    ensures ClearBelow(p, n) && Val(p) == 0
  {
    ZeroVal(p);
    if n >= 0 {
      ZeroIsMultiple(Pow2(n % 32 + 1));
    }
  }

  /** One step of long division, on values. */
  ghost predicate DivState(n: nat, d: nat, q: nat, num: nat, div: nat, shift: int) {
    && n == q * d + num
    && (if shift >= 0 then div == d * Pow2(shift) && num < 2 * div else num < d)
  }

  lemma DivTake(n: nat, d: nat, q: nat, num: nat, div: nat, shift: nat)
    requires DivState(n, d, q, num, div, shift) && num >= div
    ensures DivState(n, d, q + Pow2(shift), num - div, div / 2, shift - 1)
  {
    hide Pow2;
    Distribute(q, Pow2(shift), d);
    assert Pow2(shift) * d == d * Pow2(shift);
    HalfDiv(d, shift);
  }

  lemma DivSkip(n: nat, d: nat, q: nat, num: nat, div: nat, shift: nat)
    requires DivState(n, d, q, num, div, shift) && num < div
    ensures DivState(n, d, q, num, div / 2, shift - 1)
  {
    hide Pow2;
    HalfDiv(d, shift);
  }

  lemma HalfDiv(d: nat, shift: nat)
    ensures shift > 0 ==> d * Pow2(shift) / 2 == d * Pow2(shift - 1) && d * Pow2(shift) == 2 * (d * Pow2(shift - 1))
    ensures shift == 0 ==> d * Pow2(shift) == d
  {
    if shift > 0 {
      assert d * (2 * Pow2(shift - 1)) == 2 * (d * Pow2(shift - 1));
    }
  }

  /** Aligning the divisor with the number loses no bit of it. */
  lemma Aligned(n: nat, d: nat, nb: nat, db: nat, w: nat)
    requires IsBitLength(n, nb) && IsBitLength(d, db) && 0 < db <= nb <= 32 * w
    ensures d * Pow2(nb - db) < P(w) && n < 2 * (d * Pow2(nb - db))
  {
    hide P;
    var t := Pow2(nb - db);
    Pow2Add(db, nb - db);
    Pow2Add(db - 1, nb - db);
    DoublePow(nb - 1);
    Pow2P(w, 0);
    OneBit();
    Pow2Mono(nb, 32 * w);
    hide Pow2;
    TimesStrict2(d, Pow2(db), t);
    TimesMono(Pow2(db - 1), d, t, t);
  }

  lemma TimesStrict2(a: nat, b: nat, c: nat)
    requires a < b && c > 0
    ensures a * c < b * c
  {
    TimesMono(a + 1, b, c, c);
    Distribute(a, 1, c);
  }

  /** Long division in base 2; false, with the number set to zero, if the divisor is zero. */
  method DivAssign(p: array<nat>, b: array<nat>) returns (ok: bool)
    requires p.Length == b.Length > 0 && Limbs(p[..]) && Limbs(b[..])
    modifies p
    ensures ok <==> Val(old(b[..])) != 0
    ensures Limbs(p[..]) && Val(p[..]) == if ok then Val(old(p[..])) / Val(old(b[..])) else 0
  {
    hide Val, P, Pow2, Or, IsBitLength, ClearBelow, DivState;
    ghost var n, d := Val(p[..]), Val(b[..]);
    var div := Copy(b);
    var num := Copy(p);
    Clear(p);
    ClearStart(p[..], -1);
    var nb := Bits(num);
    var db := Bits(div);
    BitsZero(d, db);
    if db == 0 {
      return false;
    }
    ok := true;
    if db > nb {
      SmallerNumber(n, nb, d, db);
      return;
    }
    var shift := nb - db;
    Aligned(n, d, nb, db, p.Length);
    ShiftLeft(div, shift);
    ModUnique(d * Pow2(shift), 0, d * Pow2(shift), P(p.Length));
    ClearStart(p[..], shift);
    DivStart(n, d, Val(div[..]), shift);
    while shift >= 0
      invariant -1 <= shift < 32 * p.Length && ClearBelow(p[..], shift)
      invariant Limbs(num[..]) && Limbs(div[..]) && num.Length == div.Length == p.Length
      invariant DivState(n, d, Val(p[..]), Val(num[..]), Val(div[..]), shift)
      decreases shift + 1
    {
      ghost var q, x, y, s := Val(p[..]), Val(num[..]), Val(div[..]), p[..];
      var c := CompareTo(num, div);
      if c >= 0 {
        DivTake(n, d, q, x, y, shift);
        ValBound(num[..]);
        SubAssign(num, div);
        ModUnique(x - y, 0, x - y, P(p.Length));
        SetBit(s, shift);
        p[shift / 32] := Or(p[shift / 32], Pow2(shift % 32));
        assert p[..] == s[shift / 32 := Or(s[shift / 32], Pow2(shift % 32))];
      } else {
        DivSkip(n, d, q, x, y, shift);
        SkipBit(s, shift);
      }
      ShiftRight(div, 1);
      OneBit();
      shift := shift - 1;
    }
    DivDone(p[..], n, d, Val(num[..]), Val(div[..]));
  }

  lemma BitsZero(v: nat, n: nat)
    requires IsBitLength(v, n)
    ensures n == 0 <==> v == 0
  {
    OneBit();
  }

  lemma SmallerNumber(n: nat, nb: nat, d: nat, db: nat)
    requires IsBitLength(n, nb) && IsBitLength(d, db) && nb < db && d > 0
    ensures n / d == 0
  {
    Pow2Mono(nb, db - 1);
    Quotient(n, d, 0, n);
  }

  lemma DivStart(n: nat, d: nat, div: nat, shift: nat)
    requires div == d * Pow2(shift) && n < 2 * div
    ensures DivState(n, d, 0, n, div, shift)
  {
  }

  lemma DivDone(p: seq<nat>, n: nat, d: nat, num: nat, div: nat)
    requires ClearBelow(p, -1) && DivState(n, d, Val(p), num, div, -1)
    ensures Limbs(p) && d > 0 && Val(p) == n / d
  {
    Quotient(n, d, Val(p), num);
  }
}
