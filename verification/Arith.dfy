/** Unsigned integers in 32-bit limbs, least significant first (src/arith_uint256.h, src/arith_uint256.cpp).
    Each operator works in place on the limbs; together they are arithmetic modulo 2^(32 * width). */
module Arith {
  import opened Base
  import opened Powers

  const LIMB: nat := 0x1_0000_0000

  function P(i: nat): (r: nat)
    ensures r > 0
  {
    Pow(LIMB, i)
  }

  lemma PNext(i: nat)
    ensures P(i + 1) == P(i) * LIMB && P(0) == 1
  {
  }

  ghost predicate Limbs(s: seq<nat>) {
    forall i :: 0 <= i < |s| ==> s[i] < LIMB
  }

  function Val(s: seq<nat>): nat {
    if s == [] then 0 else Val(s[..|s| - 1]) + s[|s| - 1] * P(|s| - 1)
  }

  lemma ValSnoc(s: seq<nat>, k: nat)
    requires k < |s|
    ensures Val(s[..k + 1]) == Val(s[..k]) + s[k] * P(k)
  {
    assert s[..k + 1][..k] == s[..k];
  }

  lemma {:induction false} ValBound(s: seq<nat>)
    requires Limbs(s)
    ensures Val(s) < P(|s|)
    decreases |s|
  {
    if s == [] {
      PNext(0);
    } else {
      var k := |s| - 1;
      ValBound(s[..k]);
      PNext(k);
      BoundStep(Val(s[..k]), s[k], P(k));
    }
  }

  lemma BoundStep(v: nat, d: nat, p: nat)
    requires v < p && d < LIMB
    ensures v + d * p < p * LIMB
  {
    TimesMono(d + 1, LIMB, p, p);
    Distribute(d, 1, p);
  }

  /** Changing one limb changes the value by that much at its weight. */
  lemma {:induction false} ValUpdate(s: seq<nat>, k: nat, d: nat)
    requires k < |s|
    ensures Val(s[k := d]) == Val(s) + (d - s[k]) * P(k)
    decreases |s|
  {
    var m := |s| - 1;
    if k == m {
      assert s[k := d][..m] == s[..m];
      UpdateStep(d, s[k], P(k));
    } else {
      ValUpdate(s[..m], k, d);
      assert s[k := d][..m] == s[..m][k := d];
    }
  }

  lemma UpdateStep(d: int, e: int, p: int)
    ensures (d - e) * p == d * p - e * p
  {
  }

  lemma Distribute(x: int, y: int, p: int)
    ensures (x + y) * p == x * p + y * p
  {
  }

  /** Two values that differ by a multiple of m are the same modulo m. */
  lemma ModUnique(v: nat, k: int, total: int, m: nat)
    requires m > 0 && v + k * m == total && v < m
    ensures total % m == v
  {
    var q, r := total / m, total % m;
    assert total == q * m + r;
    assert r - v == (k - q) * m;
    assert k - q >= 1 ==> (k - q) * m >= m;
    assert k - q <= -1 ==> (k - q) * m + m <= 0;
  }

  /** One column of a sum: the limb takes the low half, the carry the high half. */
  lemma Column(n: nat, p: nat)
    ensures n % LIMB < LIMB && n % LIMB * p + n / LIMB * (p * LIMB) == n * p
  {
    var q, r := n / LIMB, n % LIMB;
    assert n == q * LIMB + r;
    assert q * (p * LIMB) == q * LIMB * p;
    assert (q * LIMB + r) * p == q * LIMB * p + r * p;
  }

  lemma SetColumn(s: seq<nat>, k: nat, n: nat)
    requires k < |s|
    ensures Val(s[k := n % LIMB]) + n / LIMB * P(k + 1) == Val(s) + (n - s[k]) * P(k)
  {
    ValUpdate(s, k, n % LIMB);
    Column(n, P(k));
    PNext(k);
    UpdateStep(n % LIMB, s[k], P(k));
    UpdateStep(n, s[k], P(k));
  }

  // ---------- addition and subtraction ----------

  method AddAssign(a: array<nat>, b: array<nat>)
    requires a.Length == b.Length && Limbs(a[..]) && Limbs(b[..])
    modifies a
    ensures Limbs(a[..]) && Val(a[..]) == (Val(old(a[..])) + Val(old(b[..]))) % P(a.Length)
  {
    hide Val, P;
    ghost var a0, b0 := a[..], b[..];
    var carry: nat := 0;
    ValEmpty();
    for i: nat := 0 to a.Length
      invariant Limbs(a[..]) && carry <= 1
      invariant forall j :: i <= j < a.Length ==> b[j] == b0[j]
      invariant Val(a[..]) + carry * P(i) == Val(a0) + Val(b0[..i])
    {
      var n := carry + a[i] + b[i];
      assert n < 0x1_0000_0000_0000_0000;
      ghost var s := a[..];
      SetColumn(s, i, n);
      ValSnoc(b0, i);
      a[i] := n % LIMB;
      carry := n / LIMB;
      assert a[..] == s[i := n % LIMB];
      Distribute(n - s[i] - b0[i], b0[i], P(i));
    }
    assert b0[..a.Length] == b0;
    ValBound(a[..]);
    ModUnique(Val(a[..]), carry, Val(a0) + Val(b0), P(a.Length));
  }

  lemma ValEmpty()
    ensures Val([]) == 0 && P(0) == 1
  {
  }

  /** The complement of every limb, plus one. */
  method Negated(b: array<nat>) returns (r: array<nat>)
    requires b.Length > 0 && Limbs(b[..])
    ensures fresh(r) && r.Length == b.Length && Limbs(r[..])
    ensures Val(r[..]) == (P(b.Length) - Val(b[..])) % P(b.Length)
  {
    hide Val, P;
    r := new nat[b.Length](_ => 0);
    ghost var w := b.Length;
    ValEmpty();
    for i: nat := 0 to b.Length
      invariant forall j :: 0 <= j < i ==> r[j] == LIMB - 1 - b[j]
      invariant Val(r[..i]) + Val(b[..i]) == P(i) - 1
    {
      r[i] := LIMB - 1 - b[i];
      ghost var s, t := r[..], b[..];
      assert r[..i] == s[..i] && b[..i] == t[..i] && r[..i + 1] == s[..i + 1] && b[..i + 1] == t[..i + 1];
      ValSnoc(s, i);
      ValSnoc(t, i);
      Distribute(s[i], t[i], P(i));
      PNext(i);
    }
    assert r[..w] == r[..] && b[..w] == b[..];
    Increment(r);
  }

  /** Adds one: limbs that wrap to zero carry into the next. */
  method Increment(a: array<nat>)
    requires a.Length > 0 && Limbs(a[..])
    modifies a
    ensures Limbs(a[..]) && Val(a[..]) == (Val(old(a[..])) + 1) % P(a.Length)
  {
    hide Val, P;
    ghost var a0 := a[..];
    ValEmpty();
    var i: nat := 0;
    ghost var s := a[..];
    SetColumn(s, 0, a[0] + 1);
    a[0] := (a[0] + 1) % LIMB;
    assert a[..] == s[0 := (s[0] + 1) % LIMB];
    while a[i] == 0 && i < a.Length - 1
      invariant i < a.Length && Limbs(a[..])
      invariant Val(a[..]) + (if a[i] == 0 then 1 else 0) * P(i + 1) == Val(a0) + 1
      decreases a.Length - i
    {
      i := i + 1;
      s := a[..];
      SetColumn(s, i, a[i] + 1);
      a[i] := (a[i] + 1) % LIMB;
      assert a[..] == s[i := (s[i] + 1) % LIMB];
    }
    ValBound(a[..]);
    if a[i] == 0 {
      ModUnique(Val(a[..]), 1, Val(a0) + 1, P(a.Length));
    } else {
      ModUnique(Val(a[..]), 0, Val(a0) + 1, P(a.Length));
    }
  }

  /** Takes one away: limbs that wrap to the largest value borrow from the next. */
  method Decrement(a: array<nat>)
    requires a.Length > 0 && Limbs(a[..])
    modifies a
    ensures Limbs(a[..]) && Val(a[..]) == (Val(old(a[..])) - 1) % P(a.Length)
  {
    hide Val, P;
    ghost var a0 := a[..];
    ValEmpty();
    var i: nat := 0;
    ghost var s := a[..];
    Borrow(s, 0);
    a[0] := (a[0] - 1) % LIMB;
    assert a[..] == s[0 := (s[0] - 1) % LIMB];
    while a[i] == LIMB - 1 && i < a.Length - 1
      invariant i < a.Length && Limbs(a[..])
      invariant Val(a[..]) - (if a[i] == LIMB - 1 then 1 else 0) * P(i + 1) == Val(a0) - 1
      decreases a.Length - i
    {
      i := i + 1;
      s := a[..];
      Borrow(s, i);
      a[i] := (a[i] - 1) % LIMB;
      assert a[..] == s[i := (s[i] - 1) % LIMB];
    }
    ValBound(a[..]);
    if a[i] == LIMB - 1 {
      ModUnique(Val(a[..]), -1, Val(a0) - 1, P(a.Length));
    } else {
      ModUnique(Val(a[..]), 0, Val(a0) - 1, P(a.Length));
    }
  }

  lemma Borrow(s: seq<nat>, k: nat)
    requires k < |s| && Limbs(s)
    ensures Val(s[k := (s[k] - 1) % LIMB]) - (if s[k] == 0 then 1 else 0) * P(k + 1) == Val(s) - P(k)
    ensures (s[k] - 1) % LIMB == LIMB - 1 <==> s[k] == 0
  {
    hide P, Val;
    var d := (s[k] - 1) % LIMB;
    ValUpdate(s, k, d);
    PNext(k);
    if s[k] == 0 {
      assert d - s[k] == LIMB - 1;
      UpdateStep(LIMB, 1, P(k));
    } else {
      assert d - s[k] == -1;
    }
  }

  method SubAssign(a: array<nat>, b: array<nat>)
    requires a.Length == b.Length > 0 && Limbs(a[..]) && Limbs(b[..])
    modifies a
    ensures Limbs(a[..]) && Val(a[..]) == (Val(old(a[..])) - Val(old(b[..]))) % P(a.Length)
  {
    hide Val, P;
    ghost var x, y, m := Val(a[..]), Val(b[..]), P(a.Length);
    ValBound(a[..]);
    ValBound(b[..]);
    var n := Negated(b);
    AddAssign(a, n);
    SubMod(x, y, m);
  }

  lemma SubMod(x: nat, y: nat, m: nat)
    requires m > 0 && x < m && y < m
    ensures (x + (m - y) % m) % m == (x - y) % m
  {
    if y == 0 {
      assert (m - y) % m == 0 by { ModUnique(0, 1, m, m); }
    } else {
      ModUnique(m - y, 0, m - y, m);
      if x >= y {
        ModUnique(x - y, 1, x + (m - y), m);
        ModUnique(x - y, 0, x - y, m);
      } else {
        ModUnique(x + m - y, 0, x + (m - y), m);
        ModUnique(x + m - y, -1, x - y, m);
      }
    }
  }

  // ---------- multiplication ----------

  ghost function At(c: int, k: nat): int {
    c * P(k)
  }

  ghost function Row(x: int, j: nat, v: int): int {
    x * P(j) * v
  }

  ghost function Times(x: int, v: int): int {
    x * v
  }

  lemma SmallColumn(s: seq<nat>, a0: seq<nat>, i: nat, x: nat, carry: nat, n: nat)
    requires i < |s| == |a0| && Limbs(a0) && s[i] == a0[i] && x < LIMB && carry < LIMB && n == carry + x * a0[i]
    requires Val(s) + At(carry, i) == Val(a0) + Times(x - 1, Val(a0[..i]))
    ensures n < 0x1_0000_0000_0000_0000 && n / LIMB < LIMB
    ensures Val(s[i := n % LIMB]) + At(n / LIMB, i + 1) == Val(a0) + Times(x - 1, Val(a0[..i + 1]))
  {
    hide P, Val, Times;
    ProductFits(x, a0[i], carry, 0);
    SetColumn(s, i, n);
    ValSnoc(a0, i);
    SmallStep(carry, x, a0[i], P(i), Val(a0[..i]));
  }

  method MulSmall(a: array<nat>, x: nat)
    requires x < LIMB && Limbs(a[..])
    modifies a
    ensures Limbs(a[..]) && Val(a[..]) == Val(old(a[..])) * x % P(a.Length)
  {
    hide Val, P, At, Times;
    ghost var a0 := a[..];
    var carry: nat := 0;
    NothingYet(0, 0);
    assert Times(x - 1, Val([])) == 0 by { ZeroTimes(x - 1); }
    for i: nat := 0 to a.Length
      invariant Limbs(a[..]) && carry < LIMB
      invariant forall j :: i <= j < a.Length ==> a[j] == a0[j]
      invariant Val(a[..]) + At(carry, i) == Val(a0) + Times(x - 1, Val(a0[..i]))
    {
      ghost var s := a[..];
      var n: nat := carry + x * a[i];
      SmallColumn(s, a0, i, x, carry, n);
      a[i] := n % LIMB;
      carry := n / LIMB;
      assert a[..] == s[i := a[i]];
    }
    assert a0[..a.Length] == a0;
    SmallDone(a[..], a0, x, carry);
  }

  lemma NothingYet(x: int, j: nat)
    ensures At(0, j) == 0 && Row(x, j, Val([])) == 0 && forall v :: Row(0, 0, v) == 0
    ensures Val([]) == 0
  {
    ValEmpty();
  }

  lemma ZeroTimes(x: int)
    ensures Times(x, Val([])) == 0
  {
  }

  lemma SmallDone(s: seq<nat>, a0: seq<nat>, x: nat, carry: nat)
    requires Limbs(s) && Val(s) + At(carry, |s|) == Val(a0) + Times(x - 1, Val(a0))
    ensures Val(s) == Val(a0) * x % P(|s|)
  {
    hide P, Val;
    Distribute(1, x - 1, Val(a0));
    ValBound(s);
    ModUnique(Val(s), carry, Val(a0) * x, P(|s|));
  }

  lemma SmallStep(c: int, x: int, d: int, p: int, v: int)
    ensures (c + x * d - d) * p == c * p + Times(x - 1, v + d * p) - Times(x - 1, v)
  {
    assert x * d - d == (x - 1) * d;
    Distribute(c, (x - 1) * d, p);
    assert (x - 1) * d * p == (x - 1) * (d * p);
    assert (x - 1) * (v + d * p) == (x - 1) * v + (x - 1) * (d * p);
  }

  /** A product of two limbs and two more limbs fit in 64 bits. */
  lemma ProductFits(x: nat, y: nat, c: nat, d: nat)
    requires x < LIMB && y < LIMB && c < LIMB && d < LIMB
    ensures c + d + x * y < 0x1_0000_0000_0000_0000 && (c + d + x * y) / LIMB < LIMB
  {
    TimesMono(x, LIMB - 1, y, LIMB - 1);
  }

  lemma RowColumn(s: seq<nat>, b: seq<nat>, j: nat, i: nat, x: nat, carry: nat, total: int)
    requires i + j < |s| == |b| && Limbs(s) && Limbs(b) && x < LIMB && carry < LIMB
    requires Val(s) + At(carry, i + j) == total + Row(x, j, Val(b[..i]))
    ensures var n: nat := carry + s[i + j] + x * b[i];
      && n < 0x1_0000_0000_0000_0000 && n / LIMB < LIMB
      && Val(s[i + j := n % LIMB]) + At(n / LIMB, i + j + 1) == total + Row(x, j, Val(b[..i + 1]))
  {
    hide P, Val;
    var n: nat := carry + s[i + j] + x * b[i];
    ProductFits(x, b[i], carry, s[i + j]);
    SetColumn(s, i + j, n);
    ValSnoc(b, i);
    RowStep(carry, x, b[i], j, i, Val(b[..i]));
  }

  /** Adds x times b, shifted by j limbs, to p. They may be the same number if it is zero. */
  method AddRow(p: array<nat>, j: nat, x: nat, b: array<nat>) returns (ghost over: nat)
    requires p.Length == b.Length && j < p.Length && x < LIMB && Limbs(p[..]) && Limbs(b[..])
    requires p == b ==> forall k :: 0 <= k < p.Length ==> p[k] == 0
    modifies p
    ensures Limbs(p[..]) && b[..] == old(b[..])
    ensures Val(p[..]) + At(over, p.Length) == Val(old(p[..])) + Row(x, j, Val(old(b[..])))
  {
    hide Val, P, At, Row;
    ghost var p0, b0 := p[..], b[..];
    var carry: nat := 0;
    NothingYet(x, j);
    var i: nat := 0;
    while i + j < p.Length
      invariant i + j <= p.Length && Limbs(p[..]) && carry < LIMB && b[..] == b0
      invariant p == b ==> carry == 0 && forall k :: 0 <= k < p.Length ==> p[k] == 0
      invariant Val(p[..]) + At(carry, i + j) == Val(p0) + Row(x, j, Val(b0[..i]))
    {
      ghost var s := p[..];
      RowColumn(s, b0, j, i, x, carry, Val(p0));
      var n: nat := carry + p[i + j] + x * b[i];
      assert p == b ==> n == 0;
      p[i + j] := n % LIMB;
      carry := n / LIMB;
      assert p[..] == s[i + j := p[i + j]];
      i := i + 1;
    }
    over := RowOver(x, j, b0, carry);
  }

  /** What is cut off at the top is a multiple of the modulus. */
  lemma RowOver(x: nat, j: nat, b: seq<nat>, carry: nat) returns (over: nat)
    requires j < |b|
    ensures Row(x, j, Val(b)) - Row(x, j, Val(b[..|b| - j])) == At(over, |b|) - At(carry, |b|)
  {
    hide P, Val;
    var w := |b|;
    ValSplit(b, w - j);
    over := carry + x * Val(b[w - j..]);
    RowRest(x, j, w, Val(b[..w - j]), Val(b[w - j..]), carry);
  }

  lemma RowStep(c: nat, x: nat, d: nat, j: nat, i: nat, v: nat)
    ensures (c + x * d) * P(i + j) == c * P(i + j) + x * P(j) * (v + d * P(i)) - x * P(j) * v
  {
    hide P;
    PAdd(i, j);
    RowArith(c, x, d, P(i), P(j), v);
  }

  lemma RowArith(c: nat, x: nat, d: nat, p: nat, q: nat, v: nat)
    ensures (c + x * d) * (p * q) == c * (p * q) + x * q * (v + d * p) - x * q * v
  {
    Distribute(c, x * d, p * q);
    assert x * q * (v + d * p) == x * q * v + x * q * (d * p);
    assert x * d * (p * q) == x * q * (d * p);
  }

  lemma PAdd(i: nat, j: nat)
    ensures P(i + j) == P(i) * P(j)
  {
    PowAdd(LIMB, i, j);
  }

  lemma RowRest(x: nat, j: nat, w: nat, low: nat, high: nat, c: nat)
    requires j < w
    ensures x * P(j) * (low + P(w - j) * high) == x * P(j) * low + x * high * P(w)
    ensures (c + x * high) * P(w) == c * P(w) + x * high * P(w)
  {
    hide P;
    PAdd(w - j, j);
    Distribute(c, x * high, P(w));
    RestArith(x, P(j), P(w - j), low, high);
  }

  lemma RestArith(x: nat, p: nat, q: nat, low: nat, high: nat)
    ensures x * p * (low + q * high) == x * p * low + x * high * (q * p)
  {
    assert x * p * (q * high) == x * high * (q * p);
  }

  lemma {:induction false} ValSplit(s: seq<nat>, k: nat)
    requires k <= |s|
    ensures Val(s) == Val(s[..k]) + P(k) * Val(s[k..])
    decreases |s|
  {
    if k == |s| {
      assert s[..k] == s && s[k..] == [];
    } else {
      var m := |s| - 1;
      ValSplit(s[..m], k);
      assert s[..m][..k] == s[..k] && s[..m][k..] == s[k..][..m - k] && s[k..][m - k] == s[m];
      PAdd(k, m - k);
      SplitArith(P(k), Val(s[k..][..m - k]), s[m], P(m - k));
    }
  }

  lemma SplitArith(p: nat, v: nat, d: nat, q: nat)
    ensures p * (v + d * q) == p * v + d * (p * q)
  {
    assert p * (d * q) == d * (p * q);
  }

  /** The product of two numbers; but the left operand is cleared before the right one is read, so multiplying
      a number by itself in place gives zero. */
  method MulAssign(p: array<nat>, b: array<nat>)
    requires p.Length == b.Length && Limbs(p[..]) && Limbs(b[..])
    modifies p
    ensures Limbs(p[..])
    ensures Val(p[..]) == if p == b then 0 else Val(old(p[..])) * Val(old(b[..])) % P(p.Length)
  {
    hide Val, P, At, Row;
    ghost var a0, w := p[..], p.Length;
    var a := new nat[p.Length];
    for i: nat := 0 to p.Length
      invariant p[..] == a0 && b[..] == old(b[..]) && forall k :: 0 <= k < i ==> a[k] == p[k]
    {
      a[i] := p[i];
    }
    assert a[..] == a0;
    for i: nat := 0 to p.Length
      invariant a[..] == a0 && (p != b ==> b[..] == old(b[..])) && forall k :: 0 <= k < i ==> p[k] == 0
    {
      p[i] := 0;
    }
    ghost var b1 := b[..];
    ZeroVal(p[..]);
    ValEmpty();
    ghost var over: nat := 0;
    NothingYet(0, w);
    for j: nat := 0 to p.Length
      invariant a[..] == a0 && b[..] == b1 && Limbs(p[..]) && Limbs(b1)
      invariant Val(p[..]) + At(over, w) == Row(Val(a0[..j]), 0, Val(b1))
    {
      assert a[j] == a0[j];
      assert p == b ==> forall k :: 0 <= k < w ==> p[k] == b1[k];
      ghost var more := AddRow(p, j, a[j], b);
      NextRow(a0, j, Val(b1));
      AtAdd(over, more, w);
      over := over + more;
    }
    assert a0[..w] == a0;
    MulDone(p[..], Val(a0), Val(b1), over);
  }

  lemma NextRow(a: seq<nat>, j: nat, v: nat)
    requires j < |a|
    ensures Row(Val(a[..j + 1]), 0, v) == Row(Val(a[..j]), 0, v) + Row(a[j], j, v)
  {
    PNext(0);
    ValSnoc(a, j);
    Distribute(Val(a[..j]), a[j] * P(j), v);
  }

  lemma AtAdd(c: int, d: int, k: nat)
    ensures At(c + d, k) == At(c, k) + At(d, k)
  {
    Distribute(c, d, P(k));
  }

  lemma MulDone(s: seq<nat>, x: nat, y: nat, over: nat)
    requires Limbs(s) && Val(s) + At(over, |s|) == Row(x, 0, y)
    ensures Val(s) == x * y % P(|s|)
  {
    PNext(0);
    ValBound(s);
    ModUnique(Val(s), over, x * y, P(|s|));
  }

  lemma {:induction false} ZeroVal(s: seq<nat>)
    requires forall i :: 0 <= i < |s| ==> s[i] == 0
    ensures Val(s) == 0
    decreases |s|
  {
    if s != [] {
      ZeroVal(s[..|s| - 1]);
    }
  }
}
