/** How the unspent outputs of a transaction are written and read (src/coins.h, src/coins.cpp). The first two
    outputs have a flag each in a header code; for the others there is a bit mask, of which only the number of
    non-zero bytes is stored. */
module CoinsCodec {
  import opened Base
  import opened Powers
  import opened Coins
  import opened Compressor

  // ---------- one byte of the mask ----------

  /** Least significant first. */
  function ByteOf(bits: seq<bool>): (r: nat) {
    if bits == [] then 0 else (if bits[0] then 1 else 0) + 2 * ByteOf(bits[1..])
  }

  function BitsOf(ch: nat, n: nat): (r: seq<bool>)
    ensures |r| == n
  {
    if n == 0 then [] else [ch % 2 == 1] + BitsOf(ch / 2, n - 1)
  }

  /** The availability of the n outputs from position k on; what is past the end is not available. */
  function Avail(vout: seq<TxOut>, k: nat, n: nat): (r: seq<bool>)
    ensures |r| == n && forall i :: 0 <= i < n ==> (r[i] <==> k + i < |vout| && !vout[k + i].IsNull())
  {
    seq(n, i requires 0 <= i => k + i < |vout| && !vout[k + i].IsNull())
  }

  lemma {:induction false} BitsOfByte(bits: seq<bool>)
    ensures BitsOf(ByteOf(bits), |bits|) == bits
  {
    if bits != [] {
      BitsOfByte(bits[1..]);
    }
  }

  lemma {:induction false} ByteNonzero(bits: seq<bool>)
    ensures ByteOf(bits) != 0 <==> true in bits
  {
    if bits != [] {
      ByteNonzero(bits[1..]);
    }
  }

  function MaskByte(vout: seq<TxOut>, b: nat): nat {
    ByteOf(Avail(vout, 2 + 8 * b, 8))
  }

  // ---------- the size of the mask ----------

  /** Among the first `count` bytes of the mask: one past the last that is not zero, and how many are not. */
  function MaskSize(vout: seq<TxOut>, count: nat): (r: (nat, nat))
    ensures r.0 <= count && (r.0 > 0 ==> MaskByte(vout, r.0 - 1) != 0)
    ensures forall b :: r.0 <= b < count ==> MaskByte(vout, b) == 0
    ensures r.1 == 0 <==> r.0 == 0
  {
    if count == 0 then (0, 0)
    else
      var (bytes, nonzero) := MaskSize(vout, count - 1);
      if MaskByte(vout, count - 1) != 0 then (count, nonzero + 1) else (bytes, nonzero)
  }

  function MaskBytes(vout: seq<TxOut>): nat {
    if |vout| <= 2 then 0 else (|vout| - 2 + 7) / 8
  }

  /** Whether the outputs of one mask byte are all spent. */
  method ByteIsZero(vout: seq<TxOut>, b: nat) returns (zero: bool)
    ensures zero <==> MaskByte(vout, b) == 0
  {
    hide MaskByte;
    zero := true;
    var i: nat := 0;
    while i < 8 && 2 + 8 * b + i < |vout|
      invariant i <= 8 && (zero <==> true !in Avail(vout, 2 + 8 * b, i))
    {
      AvailNext(vout, 2 + 8 * b, i);
      if !vout[2 + 8 * b + i].IsNull() {
        zero := false;
      }
      i := i + 1;
    }
    RestUnavailable(vout, b, i);
  }

  method CalcMaskSize(vout: seq<TxOut>) returns (bytes: nat, nonzero: nat)
    ensures (bytes, nonzero) == MaskSize(vout, MaskBytes(vout))
  {
    hide MaskByte;
    bytes, nonzero := 0, 0;
    var b: nat := 0;
    while 2 + 8 * b < |vout|
      invariant b <= MaskBytes(vout) && (bytes, nonzero) == MaskSize(vout, b)
    {
      var zero := ByteIsZero(vout, b);
      if !zero {
        bytes := b + 1;
        nonzero := nonzero + 1;
      }
      b := b + 1;
    }
  }

  lemma AvailNext(vout: seq<TxOut>, k: nat, n: nat)
    ensures Avail(vout, k, n + 1) == Avail(vout, k, n) + [k + n < |vout| && !vout[k + n].IsNull()]
  {
  }

  lemma RestUnavailable(vout: seq<TxOut>, b: nat, i: nat)
    requires i == 8 || (i < 8 && 2 + 8 * b + i >= |vout|)
    ensures true in Avail(vout, 2 + 8 * b, i) <==> MaskByte(vout, b) != 0
  {
    var all, some := Avail(vout, 2 + 8 * b, 8), Avail(vout, 2 + 8 * b, i);
    ByteNonzero(all);
    assert forall j :: 0 <= j < i ==> all[j] == some[j];
    assert forall j :: i <= j < 8 ==> !all[j];
  }

  // ---------- writing ----------

  function MaskFrom(vout: seq<TxOut>, b: nat, bytes: nat): Stream
    decreases bytes - b
  {
    if b >= bytes then [] else [MaskByte(vout, b)] + MaskFrom(vout, b + 1, bytes)
  }

  function OutsBytes(keys: Keys, vout: seq<TxOut>): Stream
    requires OutsWritable(vout)
  {
    if vout == [] then []
    else (if vout[0].IsNull() then [] else OutBytes(keys, vout[0])) + OutsBytes(keys, vout[1..])
  }

  /** Spent outputs have been cleared, others hold an amount. */
  predicate OutsWritable(vout: seq<TxOut>) {
    forall i :: 0 <= i < |vout| ==> if vout[i].IsNull() then vout[i] == NULL_OUT else vout[i].value >= 0
  }

  predicate Writable(c: Coins) {
    !c.IsPruned() && c.IsTrimmed() && OutsWritable(c.vout)
  }

  function Flags(coinbase: bool, first: bool, second: bool): nat {
    (if coinbase then 1 else 0) + (if first then 2 else 0) + (if second then 4 else 0)
  }

  /** The header code: seven is never enough to lose the number of non-zero bytes. */
  function Code(coinbase: bool, first: bool, second: bool, nonzero: nat): nat
    requires first || second || nonzero > 0
  {
    8 * (nonzero - (if first || second then 0 else 1)) + Flags(coinbase, first, second)
  }

  lemma FirstOrMask(c: Coins)
    requires Writable(c)
    ensures c.IsAvailable(0) || c.IsAvailable(1) || MaskSize(c.vout, MaskBytes(c.vout)).1 > 0
    ensures |c.vout| <= 2 + 8 * MaskSize(c.vout, MaskBytes(c.vout)).0 || |c.vout| <= 2
  {
    hide MaskSize, MaskByte;
    var last := |c.vout| - 1;
    if last >= 2 {
      var b := (last - 2) / 8;
      MaskCovers(c.vout, b, last);
    }
  }

  lemma MaskCovers(vout: seq<TxOut>, b: nat, i: nat)
    requires 2 + 8 * b <= i < 2 + 8 * b + 8 && i < |vout| && !vout[i].IsNull()
    ensures MaskByte(vout, b) != 0
  {
    var bits := Avail(vout, 2 + 8 * b, 8);
    assert bits[i - 2 - 8 * b];
    ByteNonzero(bits);
  }

  function CoinsBytes(keys: Keys, c: Coins): Stream
    requires Writable(c)
  {
    var (bytes, nonzero) := MaskSize(c.vout, MaskBytes(c.vout));
    FirstOrMask(c);
    VarInt(c.version)
    + (VarInt(Code(c.coinbase, c.IsAvailable(0), c.IsAvailable(1), nonzero))
       + (MaskFrom(c.vout, 0, bytes) + (OutsBytes(keys, c.vout) + VarInt(c.height))))
  }

  // ---------- reading ----------

  /** Reads bytes of the mask until `code` of them were not zero. */
  function ReadMask(st: Stream, code: nat): Option<(seq<bool>, Stream)>
    decreases |st|
  {
    if code == 0 then Some(([], st))
    else if st == [] then None
    else
      match ReadMask(st[1..], if st[0] != 0 then code - 1 else code)
      case None => None
      case Some((bits, rest)) => Some((BitsOf(st[0], 8) + bits, rest))
  }

  function ReadOuts(keys: Keys, avail: seq<bool>, st: Stream): Option<(seq<TxOut>, Stream)>
    decreases |avail|
  {
    if avail == [] then Some(([], st))
    else if !avail[0] then
      match ReadOuts(keys, avail[1..], st)
      case None => None
      case Some((outs, rest)) => Some(([NULL_OUT] + outs, rest))
    else
      match ReadOut(keys, st)
      case None => None
      case Some((o, st')) =>
        match ReadOuts(keys, avail[1..], st')
        case None => None
        case Some((outs, rest)) => Some(([o] + outs, rest))
  }

  /** The three lowest bits of the header code, and what is above them. */
  predicate CoinbaseFlag(code: nat) {
    code % 8 % 2 == 1
  }

  predicate FirstFlag(code: nat) {
    code % 8 / 2 % 2 == 1
  }

  predicate SecondFlag(code: nat) {
    code % 8 / 4 == 1
  }

  function MaskCode(code: nat): nat {
    code / 8 + (if FirstFlag(code) || SecondFlag(code) then 0 else 1)
  }

  function ReadCoins(keys: Keys, st: Stream): Option<(Coins, Stream)> {
    match ReadVarInt(st)
    case None => None
    case Some((version, s1)) =>
      match ReadVarInt(s1)
      case None => None
      case Some((code, s2)) =>
        match ReadMask(s2, MaskCode(code))
        case None => None
        case Some((bits, s3)) =>
          match ReadOuts(keys, [FirstFlag(code), SecondFlag(code)] + bits, s3)
          case None => None
          case Some((outs, s4)) =>
            match ReadVarInt(s4)
            case None => None
            case Some((height, rest)) => Some((Coins(CoinbaseFlag(code), Trim(outs), height, version), rest))
  }

  // ---------- what is written is read back ----------

  function NonzeroFrom(vout: seq<TxOut>, b: nat, bytes: nat): nat
    decreases bytes - b
  {
    if b >= bytes then 0 else (if MaskByte(vout, b) != 0 then 1 else 0) + NonzeroFrom(vout, b + 1, bytes)
  }

  lemma {:induction false} NonzeroSplit(vout: seq<TxOut>, b: nat, m: nat, bytes: nat)
    requires b <= m <= bytes
    ensures NonzeroFrom(vout, b, bytes) == NonzeroFrom(vout, b, m) + NonzeroFrom(vout, m, bytes)
    decreases m - b
  {
    hide MaskByte;
    if b < m {
      NonzeroSplit(vout, b + 1, m, bytes);
    }
  }

  lemma {:induction false} NonzeroIsCounted(vout: seq<TxOut>, count: nat)
    ensures MaskSize(vout, count).1 == NonzeroFrom(vout, 0, MaskSize(vout, count).0)
  {
    hide MaskByte;
    if count > 0 {
      NonzeroIsCounted(vout, count - 1);
      var k := MaskSize(vout, count - 1).0;
      if MaskByte(vout, count - 1) != 0 {
        NonzeroSplit(vout, 0, k, count);
        NonzeroSplit(vout, k, count - 1, count);
        NoneBetween(vout, k, count - 1);
        assert NonzeroFrom(vout, count - 1, count) == 1 + NonzeroFrom(vout, count, count);
      }
    }
  }

  lemma {:induction false} NoneBetween(vout: seq<TxOut>, b: nat, bytes: nat)
    requires forall k :: b <= k < bytes ==> MaskByte(vout, k) == 0
    ensures NonzeroFrom(vout, b, bytes) == 0
    decreases bytes - b
  {
    if b < bytes {
      NoneBetween(vout, b + 1, bytes);
    }
  }

  lemma SomeLeft(vout: seq<TxOut>, b: nat, bytes: nat)
    requires b < bytes && MaskByte(vout, bytes - 1) != 0
    ensures NonzeroFrom(vout, b, bytes) > 0
  {
    hide MaskByte;
    NonzeroSplit(vout, b, bytes - 1, bytes);
  }

  /** The mask is read to its last byte, which is not zero, and not beyond. */
  lemma {:induction false} MaskRead(vout: seq<TxOut>, b: nat, bytes: nat, rest: Stream)
    requires b <= bytes && (bytes > 0 ==> MaskByte(vout, bytes - 1) != 0)
    ensures ReadMask(MaskFrom(vout, b, bytes) + rest, NonzeroFrom(vout, b, bytes)) == Some((Avail(vout, 2 + 8 * b, 8 * (bytes - b)), rest))
    decreases bytes - b
  {
    hide MaskByte, BitsOf;
    if b < bytes {
      SomeLeft(vout, b, bytes);
      MaskRead(vout, b + 1, bytes, rest);
      var st := MaskFrom(vout, b, bytes) + rest;
      assert st[0] == MaskByte(vout, b) && st[1..] == MaskFrom(vout, b + 1, bytes) + rest;
      MaskBits(vout, b);
      assert Avail(vout, 2 + 8 * b, 8 * (bytes - b)) == Avail(vout, 2 + 8 * b, 8) + Avail(vout, 2 + 8 * (b + 1), 8 * (bytes - b - 1));
    } else {
      assert MaskFrom(vout, b, bytes) + rest == rest;
    }
  }

  lemma MaskBits(vout: seq<TxOut>, b: nat)
    ensures BitsOf(MaskByte(vout, b), 8) == Avail(vout, 2 + 8 * b, 8)
  {
    BitsOfByte(Avail(vout, 2 + 8 * b, 8));
  }

  function Nulls(n: nat): (r: seq<TxOut>)
    ensures |r| == n && forall i :: 0 <= i < n ==> r[i] == NULL_OUT
  {
    if n == 0 then [] else [NULL_OUT] + Nulls(n - 1)
  }

  /** The first output is read, given that the others are. */
  lemma OutsReadNext(keys: Keys, vout: seq<TxOut>, n: nat, rest: Stream)
    requires KeysOk(keys) && OutsWritable(vout) && n >= |vout| > 0
    requires ReadOuts(keys, Avail(vout[1..], 0, n - 1), OutsBytes(keys, vout[1..]) + rest) == Some((vout[1..] + Nulls(n - |vout|), rest))
    ensures ReadOuts(keys, Avail(vout, 0, n), OutsBytes(keys, vout) + rest) == Some((vout + Nulls(n - |vout|), rest))
  {
    hide OutBytes, ReadOut, KeysOk, Nulls, ReadOuts;
    var tail := vout[1..];
    var st := OutsBytes(keys, vout) + rest;
    assert Avail(vout, 0, n)[1..] == Avail(tail, 0, n - 1);
    assert vout + Nulls(n - |vout|) == [vout[0]] + (tail + Nulls(n - |vout|));
    ReadOutsStep(keys, Avail(vout, 0, n), st);
    if vout[0].IsNull() {
      assert st == OutsBytes(keys, tail) + rest;
    } else {
      assert st == OutBytes(keys, vout[0]) + (OutsBytes(keys, tail) + rest);
      OutRead(keys, vout[0], OutsBytes(keys, tail) + rest);
    }
  }

  lemma ReadOutsStep(keys: Keys, avail: seq<bool>, st: Stream)
    requires avail != []
    ensures !avail[0] ==> ReadOuts(keys, avail, st) == Prepended([NULL_OUT], ReadOuts(keys, avail[1..], st))
    ensures avail[0] && ReadOut(keys, st).Some? ==>
      var (o, st') := ReadOut(keys, st).value;
      ReadOuts(keys, avail, st) == Prepended([o], ReadOuts(keys, avail[1..], st'))
  {
    hide ReadOut;
  }

  lemma {:induction false} OutsRead(keys: Keys, vout: seq<TxOut>, n: nat, rest: Stream)
    requires KeysOk(keys) && OutsWritable(vout) && n >= |vout|
    ensures ReadOuts(keys, Avail(vout, 0, n), OutsBytes(keys, vout) + rest) == Some((vout + Nulls(n - |vout|), rest))
    decreases n
  {
    hide OutBytes, ReadOut, KeysOk;
    if n > 0 {
      var avail := Avail(vout, 0, n);
      if vout == [] {
        OutsRead(keys, [], n - 1, rest);
        assert avail[1..] == Avail([], 0, n - 1);
        assert [NULL_OUT] + ([] + Nulls(n - 1)) == [] + Nulls(n);
      } else {
        OutsRead(keys, vout[1..], n - 1, rest);
        OutsReadNext(keys, vout, n, rest);
      }
    } else {
      assert OutsBytes(keys, vout) + rest == rest && vout + Nulls(0) == [];
    }
  }

  lemma {:induction false} TrimNulls(vout: seq<TxOut>, n: nat)
    requires |vout| > 0 ==> !vout[|vout| - 1].IsNull()
    ensures Trim(vout + Nulls(n)) == vout
  {
    var padded := vout + Nulls(n);
    if n > 0 {
      TrimNulls(vout, n - 1);
      assert padded[..|padded| - 1] == vout + Nulls(n - 1);
    } else {
      assert padded == vout;
    }
  }

  lemma CodeDecodes(coinbase: bool, first: bool, second: bool, nonzero: nat)
    requires first || second || nonzero > 0
    ensures var code := Code(coinbase, first, second, nonzero);
      && (CoinbaseFlag(code) <==> coinbase) && (FirstFlag(code) <==> first) && (SecondFlag(code) <==> second)
      && MaskCode(code) == nonzero
  {
    EightParts(nonzero - (if first || second then 0 else 1), Flags(coinbase, first, second));
  }

  lemma EightParts(q: nat, f: nat)
    requires f < 8
    ensures (8 * q + f) / 8 == q && (8 * q + f) % 8 == f
  {
  }

  /** What is read is what was written, with a negative version or height cut to 7 bits. */
  lemma CoinsRead(keys: Keys, c: Coins, rest: Stream)
    requires KeysOk(keys) && Writable(c)
    ensures ReadCoins(keys, CoinsBytes(keys, c) + rest) ==
      Some((c.(version := if c.version < 0 then c.version % 128 else c.version,
               height := if c.height < 0 then c.height % 128 else c.height), rest))
  {
    hide VarInt, ReadVarInt, ReadMask, ReadOuts, MaskFrom, OutsBytes, MaskSize, MaskByte, Trim, KeysOk, OutsWritable, Code;
    hide CoinbaseFlag, FirstFlag, SecondFlag, MaskCode;
    var vout := c.vout;
    var (bytes, nonzero) := MaskSize(vout, MaskBytes(vout));
    FirstOrMask(c);
    NonzeroIsCounted(vout, MaskBytes(vout));
    var first, second := c.IsAvailable(0), c.IsAvailable(1);
    var code := Code(c.coinbase, first, second, nonzero);
    CodeDecodes(c.coinbase, first, second, nonzero);
    var s4 := VarInt(c.height) + rest;
    var s3 := OutsBytes(keys, vout) + s4;
    var s2 := MaskFrom(vout, 0, bytes) + s3;
    var s1 := VarInt(code) + s2;
    Regrouped(VarInt(c.version), VarInt(code), MaskFrom(vout, 0, bytes), OutsBytes(keys, vout), VarInt(c.height), rest);
    assert CoinsBytes(keys, c) + rest == VarInt(c.version) + s1;
    VarIntIff(c.version, s1);
    VarIntIff(code, s2);
    MaskRead(vout, 0, bytes, s3);
    var n := 2 + 8 * bytes;
    assert [first, second] + Avail(vout, 2, 8 * bytes) == Avail(vout, 0, n);
    OutsRead(keys, vout, n, s4);
    VarIntIff(c.height, rest);
    TrimNulls(vout, n - |vout|);
  }

  lemma Regrouped(a: Stream, b: Stream, c: Stream, d: Stream, e: Stream, rest: Stream)
    ensures a + (b + (c + (d + e))) + rest == a + (b + (c + (d + (e + rest))))
  {
  }

  /** Reading inverts writing exactly if version and height are not negative. */
  lemma RoundTripIff(keys: Keys, c: Coins, rest: Stream)
    requires KeysOk(keys) && Writable(c)
    ensures ReadCoins(keys, CoinsBytes(keys, c) + rest) == Some((c, rest)) <==> c.version >= 0 && c.height >= 0
  {
    hide CoinsBytes, ReadCoins, KeysOk, Writable;
    CoinsRead(keys, c, rest);
  }

  function OneCoin(version: int): Coins {
    Coins(false, [TxOut(1, [])], 1, version)
  }

  lemma OneCoinWritable(version: int)
    ensures Writable(OneCoin(version))
  {
    assert !OneCoin(version).vout[0].IsNull();
  }

  /** A transaction may have version -1; its coins come back with version 127. */
  lemma NegativeVersionIsLost(keys: Keys)
    requires KeysOk(keys)
    ensures Writable(OneCoin(-1)) && ReadCoins(keys, CoinsBytes(keys, OneCoin(-1)) + []) == Some((OneCoin(127), []))
  {
    hide CoinsBytes, ReadCoins, KeysOk, Writable;
    OneCoinWritable(-1);
    CoinsRead(keys, OneCoin(-1), []);
  }

  // ---------- the methods ----------

  method WriteMask(vout: seq<TxOut>, bytes: nat) returns (mask: Stream)
    ensures mask == MaskFrom(vout, 0, bytes)
  {
    hide MaskByte;
    mask := [];
    for b: nat := 0 to bytes
      invariant MaskFrom(vout, 0, bytes) == mask + MaskFrom(vout, b, bytes)
    {
      var ch := WriteByte(vout, b);
      assert mask + MaskFrom(vout, b, bytes) == mask + [ch] + MaskFrom(vout, b + 1, bytes);
      mask := mask + [ch];
    }
    assert mask + [] == mask;
  }

  /** Sets bit i for each available output, and stops early at the end of the outputs. */
  method WriteByte(vout: seq<TxOut>, b: nat) returns (ch: nat)
    ensures ch == MaskByte(vout, b)
  {
    ch := 0;
    var i: nat := 0;
    while i < 8 && 2 + 8 * b + i < |vout|
      invariant i <= 8 && ch == ByteOf(Avail(vout, 2 + 8 * b, i))
    {
      AvailNext(vout, 2 + 8 * b, i);
      ByteSnoc(Avail(vout, 2 + 8 * b, i), !vout[2 + 8 * b + i].IsNull());
      if !vout[2 + 8 * b + i].IsNull() {
        ch := ch + Pow2(i);
      }
      i := i + 1;
    }
    BytePadded(vout, b, i);
  }

  lemma {:induction false} ByteSnoc(bits: seq<bool>, bit: bool)
    ensures ByteOf(bits + [bit]) == ByteOf(bits) + (if bit then Pow2(|bits|) else 0)
  {
    if bits == [] {
      assert [bit][1..] == [];
    } else {
      ByteSnoc(bits[1..], bit);
      assert (bits + [bit])[1..] == bits[1..] + [bit];
    }
  }

  lemma {:induction false} BytePadded(vout: seq<TxOut>, b: nat, i: nat)
    requires i <= 8 && (i == 8 || 2 + 8 * b + i >= |vout|)
    ensures ByteOf(Avail(vout, 2 + 8 * b, i)) == MaskByte(vout, b)
    decreases 8 - i
  {
    if i < 8 {
      BytePadded(vout, b, i + 1);
      AvailNext(vout, 2 + 8 * b, i);
      ByteSnoc(Avail(vout, 2 + 8 * b, i), false);
    }
  }

  method WriteOuts(keys: Keys, vout: seq<TxOut>) returns (outs: Stream)
    requires OutsWritable(vout)
    ensures outs == OutsBytes(keys, vout)
  {
    hide OutBytes;
    outs := [];
    for i: nat := 0 to |vout|
      invariant OutsBytes(keys, vout) == outs + OutsBytes(keys, vout[i..])
    {
      assert vout[i..][0] == vout[i] && vout[i..][1..] == vout[i + 1..];
      if !vout[i].IsNull() {
        ghost var tail := OutsBytes(keys, vout[i + 1..]);
        assert outs + (OutBytes(keys, vout[i]) + tail) == outs + OutBytes(keys, vout[i]) + tail;
        outs := outs + OutBytes(keys, vout[i]);
      } else {
        assert OutsBytes(keys, vout[i..]) == OutsBytes(keys, vout[i + 1..]);
      }
    }
    assert outs + [] == outs;
  }

  method Serialize(keys: Keys, c: Coins) returns (st: Stream)
    requires Writable(c)
    ensures st == CoinsBytes(keys, c)
  {
    hide MaskByte, MaskFrom, OutBytes, OutsBytes, VarInt, MaskSize;
    FirstOrMask(c);
    var bytes, nonzero := CalcMaskSize(c.vout);
    var first, second := c.IsAvailable(0), c.IsAvailable(1);
    assert first || second || nonzero != 0;
    var code := 8 * (nonzero - (if first || second then 0 else 1))
      + (if c.coinbase then 1 else 0) + (if first then 2 else 0) + (if second then 4 else 0);
    var version := WriteVarInt(c.version);
    var header := WriteVarInt(code);
    var mask := WriteMask(c.vout, bytes);
    var outs := WriteOuts(keys, c.vout);
    var height := WriteVarInt(c.height);
    st := version + (header + (mask + (outs + height)));
  }

  method ReadMaskBytes(st: Stream, maskCode: nat) returns (r: Option<(seq<bool>, Stream)>)
    ensures r == ReadMask(st, maskCode)
  {
    hide BitsOf, ReadMask, Prepended;
    var code, k: nat, bits := maskCode, 0, [];
    PrependTwice([], [], ReadMask(st, maskCode));
    assert st[0..] == st;
    while code > 0
      invariant k <= |st|
      invariant ReadMask(st, maskCode) == Prepended(bits, ReadMask(st[k..], code))
      decreases |st| - k
    {
      MaskStep(bits, st, k, code);
      if k == |st| {
        return None;
      }
      PrependTwice(bits, BitsOf(st[k], 8), ReadMask(st[k + 1..], if st[k] != 0 then code - 1 else code));
      bits := bits + BitsOf(st[k], 8);
      if st[k] != 0 {
        code := code - 1;
      }
      k := k + 1;
    }
    MaskStep(bits, st, k, code);
    r := Some((bits, st[k..]));
  }

  /** One byte of the mask, unless it has ended. */
  lemma MaskStep(bits: seq<bool>, st: Stream, k: nat, code: nat)
    requires k <= |st|
    ensures code == 0 ==> Prepended(bits, ReadMask(st[k..], code)) == Some((bits, st[k..]))
    ensures code > 0 && k == |st| ==> Prepended(bits, ReadMask(st[k..], code)) == None
    ensures code > 0 && k < |st| ==>
      ReadMask(st[k..], code) == Prepended(BitsOf(st[k], 8), ReadMask(st[k + 1..], if st[k] != 0 then code - 1 else code))
  {
    hide BitsOf;
    assert bits + [] == bits;
    if k < |st| {
      assert st[k..][0] == st[k] && st[k..][1..] == st[k + 1..];
    }
  }

  function Prepended<T>(a: seq<T>, r: Option<(seq<T>, Stream)>): Option<(seq<T>, Stream)> {
    match r
    case None => None
    case Some((b, rest)) => Some((a + b, rest))
  }

  lemma PrependTwice<T>(a: seq<T>, b: seq<T>, r: Option<(seq<T>, Stream)>)
    ensures Prepended(a, Prepended(b, r)) == Prepended(a + b, r) && Prepended([], r) == r
  {
    match r
    case None =>
    case Some((c, rest)) =>
      assert a + (b + c) == a + b + c && [] + c == c;
  }

  method ReadOutsBytes(keys: Keys, avail: seq<bool>, st: Stream) returns (r: Option<(seq<TxOut>, Stream)>)
    ensures r == ReadOuts(keys, avail, st)
  {
    hide ReadOut;
    var outs, rest := [], st;
    PrependTwice([], [], ReadOuts(keys, avail, st));
    assert avail[0..] == avail;
    for i: nat := 0 to |avail|
      invariant ReadOuts(keys, avail, st) == Prepended(outs, ReadOuts(keys, avail[i..], rest))
    {
      assert avail[i..][0] == avail[i] && avail[i..][1..] == avail[i + 1..];
      var o := NULL_OUT;
      if avail[i] {
        var read := ReadOut(keys, rest);
        if read.None? {
          return None;
        }
        o, rest := read.value.0, read.value.1;
      }
      PrependTwice(outs, [o], ReadOuts(keys, avail[i + 1..], rest));
      outs := outs + [o];
    }
    assert outs + [] == outs;
    r := Some((outs, rest));
  }

  method Unserialize(keys: Keys, st: Stream) returns (r: Option<(Coins, Stream)>)
    ensures r == ReadCoins(keys, st)
  {
    hide ReadVarInt, ReadMask, ReadOuts, Trim, CoinbaseFlag, FirstFlag, SecondFlag, MaskCode;
    var version := ReadVarIntBytes(st);
    if version.None? { return None; }
    var code := ReadVarIntBytes(version.value.1);
    if code.None? { return None; }
    var n := code.value.0;
    var mask := ReadMaskBytes(code.value.1, MaskCode(n));
    if mask.None? { return None; }
    var outs := ReadOutsBytes(keys, [FirstFlag(n), SecondFlag(n)] + mask.value.0, mask.value.1);
    if outs.None? { return None; }
    var height := ReadVarIntBytes(outs.value.1);
    if height.None? { return None; }
    var vout := Cleanup(outs.value.0);
    r := Some((Coins(CoinbaseFlag(n), vout, height.value.0, version.value.0), height.value.1));
  }

  // ---------- the format as documented ----------

  /** The least significant bit of a mask byte stands for the first of its eight outputs. */
  lemma MaskBit(vout: seq<TxOut>, b: nat, k: nat)
    requires k < 8
    ensures MaskByte(vout, b) < 256
    ensures MaskByte(vout, b) / Pow2(k) % 2 == (if 2 + 8 * b + k < |vout| && vout[2 + 8 * b + k].value != -1 then 1 else 0)
  {
    BitOfByte(Avail(vout, 2 + 8 * b, 8), k);
    assert Pow2(8) == 256;
  }

  lemma {:induction false} BitOfByte(bits: seq<bool>, k: nat)
    requires k < |bits|
    ensures ByteOf(bits) < Pow2(|bits|) && ByteOf(bits) / Pow2(k) % 2 == (if bits[k] then 1 else 0)
  {
    var low, rest := if bits[0] then 1 else 0, ByteOf(bits[1..]);
    assert ByteOf(bits) == low + 2 * rest && Pow2(|bits|) == 2 * Pow2(|bits| - 1);
    if k > 0 {
      BitOfByte(bits[1..], k - 1);
      Halve(low, rest, Pow2(k - 1));
      assert Pow2(k) == 2 * Pow2(k - 1);
    } else {
      assert Pow2(0) == 1;
      if |bits| > 1 {
        BitOfByte(bits[1..], 0);
      } else {
        assert bits[1..] == [] && ByteOf([]) == 0;
      }
      hide Pow2, ByteOf;
      assert (low + 2 * rest) % 2 == low;
    }
    hide Pow2, ByteOf;
  }

  lemma Halve(low: nat, rest: nat, p: nat)
    requires low < 2 && p > 0
    ensures (low + 2 * rest) / (2 * p) == rest / p
  {
    var q, r := rest / p, rest % p;
    DivMod(rest, p);
    SameQuotient(low + 2 * rest, 2 * p, q, low + 2 * r);
  }

  lemma SameQuotient(n: nat, d: nat, q: nat, r: nat)
    requires d > 0 && n == d * q + r && r < d
    ensures n / d == q
  {
    DivMod(n, d);
    if n / d < q {
      TimesMono(n / d + 1, q, d, d);
    } else if n / d > q {
      TimesMono(q + 1, n / d, d, d);
    }
  }

  function PayTo(hash: Stream): Script {
    [0x76, 0xa9, 20] + hash + [0x88, 0xac]
  }

  /** An output to the hash of a key: the compressed amount, a zero, the hash. */
  lemma PayToBytes(keys: Keys, value: nat, a: Stream, hash: Stream)
    requires |hash| == 20 && WellFormed(a) && Meaning(a) == Compress(value)
    ensures OutBytes(keys, TxOut(value, PayTo(hash))) == a + [0] + hash
  {
    hide VarInt, Meaning, WellFormed, ScriptBytes, Compress;
    VarIntUnique(a);
    StoredForms(keys, hash, []);
    assert a + ([0] + hash) == a + [0] + hash;
  }

  lemma MeaningUpToFive(a: Stream)
    requires 1 <= |a| <= 5
    ensures Meaning(a) == a[|a| - 1] % 128
      + (if |a| > 1 then 128 * (a[|a| - 2] % 128 + 1) else 0)
      + (if |a| > 2 then 16_384 * (a[|a| - 3] % 128 + 1) else 0)
      + (if |a| > 3 then 2_097_152 * (a[|a| - 4] % 128 + 1) else 0)
      + (if |a| > 4 then 268_435_456 * (a[|a| - 5] % 128 + 1) else 0)
  {
    assert Pow(128, 1) == 128 && Pow(128, 2) == 16_384 && Pow(128, 3) == 2_097_152 && Pow(128, 4) == 268_435_456;
    SumStep(a, 1);
    SumStep(a, 2);
    SumStep(a, 3);
    SumStep(a, 4);
    assert HighSum(a, 0) == 0;
  }

  lemma SumStep(a: Stream, k: nat)
    requires k > 0
    ensures k < |a| ==> HighSum(a, k) == HighSum(a, k - 1) + Pow(128, k) * (a[|a| - k - 1] % 128 + 1)
  {
  }

  lemma {:induction false} NullsWriteNothing(keys: Keys, n: nat, vout: seq<TxOut>)
    requires OutsWritable(vout)
    ensures OutsWritable(Nulls(n) + vout) && OutsBytes(keys, Nulls(n) + vout) == OutsBytes(keys, vout)
  {
    hide OutBytes;
    if n > 0 {
      NullsWriteNothing(keys, n - 1, vout);
      assert (Nulls(n) + vout)[1..] == Nulls(n - 1) + vout;
    } else {
      assert Nulls(0) + vout == vout;
    }
  }

  lemma OneOut(keys: Keys, o: TxOut, rest: seq<TxOut>)
    requires o.value >= 0 && OutsWritable(rest)
    ensures OutsWritable([o] + rest) && OutsBytes(keys, [o] + rest) == OutBytes(keys, o) + OutsBytes(keys, rest)
  {
    hide OutBytes;
    assert ([o] + rest)[1..] == rest;
  }

  lemma NoOuts(keys: Keys)
    ensures OutsWritable([]) && OutsBytes(keys, []) == []
  {
  }

  /** Version 1, code 4, no mask, 600 coins to the hash of a key as output 1, height 203998. */
  lemma FirstExample(keys: Keys, hash: Stream)
    requires |hash| == 20
    ensures var vout := Nulls(1) + ([TxOut(60_000_000_000, PayTo(hash))] + []);
      var c := Coins(false, vout, 203998, 1);
      Writable(c) && CoinsBytes(keys, c) == [0x01, 0x04] + ([0x83, 0x58, 0x00] + hash) + [0x8b, 0xb8, 0x5e]
  {
    hide OutBytes, VarInt, Meaning, Compress, PayTo, OutsBytes, OutsWritable;
    var o := TxOut(60_000_000_000, PayTo(hash));
    FirstNumbers();
    PayToBytes(keys, 60_000_000_000, [0x83, 0x58], hash);
    NoOuts(keys);
    OneOut(keys, o, []);
    NullsWriteNothing(keys, 1, [o] + []);
    var vout := Nulls(1) + ([o] + []);
    assert |vout| == 2 && vout[0] == NULL_OUT && vout[1] == o;
    assert MaskSize(vout, 0) == (0, 0) && MaskFrom(vout, 0, 0) == [];
    assert [0x83, 0x58] + [0] + hash == [0x83, 0x58, 0x00] + hash;
    assert [0x83, 0x58, 0x00] + hash + [] == [0x83, 0x58, 0x00] + hash;
    assert Code(false, false, true, 0) == 4;
    var outs := [0x83, 0x58, 0x00] + hash;
    assert [0x01] + ([0x04] + ([] + (outs + [0x8b, 0xb8, 0x5e]))) == [0x01, 0x04] + outs + [0x8b, 0xb8, 0x5e];
  }

  lemma FirstNumbers()
    ensures VarInt(1) == [0x01] && VarInt(4) == [0x04] && VarInt(203998) == [0x8b, 0xb8, 0x5e]
    ensures WellFormed([0x83, 0x58]) && Meaning([0x83, 0x58]) == Compress(60_000_000_000)
  {
    hide VarInt, Meaning, Compress;
    MeaningUpToFive([0x01]);
    MeaningUpToFive([0x04]);
    MeaningUpToFive([0x8b, 0xb8, 0x5e]);
    MeaningUpToFive([0x83, 0x58]);
    VarIntUnique([0x01]);
    VarIntUnique([0x04]);
    VarIntUnique([0x8b, 0xb8, 0x5e]);
    CompressIs(60, 1, 0);
  }

  /** The outputs 4 and 16 of a coinbase: version 1, code 9, a mask of two bytes, the outputs, height 120891. */
  lemma SecondExample(keys: Keys, hash: Stream, hash': Stream)
    requires |hash| == |hash'| == 20
    ensures var vout := Nulls(4) + ([TxOut(234_925_952, PayTo(hash))] + (Nulls(11) + ([TxOut(110_397, PayTo(hash'))] + [])));
      var c := Coins(true, vout, 120891, 1);
      && Writable(c)
      && CoinsBytes(keys, c) == [0x01, 0x09, 0x04, 0x40] + ([0x86, 0xef, 0x97, 0xd5, 0x79, 0x00] + hash
                                + ([0xbb, 0xd1, 0x23, 0x00] + hash')) + [0x86, 0xaf, 0x3b]
  {
    hide OutBytes, VarInt, Meaning, Compress, PayTo, MaskSize, MaskByte, OutsBytes, OutsWritable, MaskFrom;
    var o, o' := TxOut(234_925_952, PayTo(hash)), TxOut(110_397, PayTo(hash'));
    SecondNumbers();
    PayToBytes(keys, 234_925_952, [0x86, 0xef, 0x97, 0xd5, 0x79], hash);
    PayToBytes(keys, 110_397, [0xbb, 0xd1, 0x23], hash');
    NoOuts(keys);
    OneOut(keys, o', []);
    NullsWriteNothing(keys, 11, [o'] + []);
    OneOut(keys, o, Nulls(11) + ([o'] + []));
    NullsWriteNothing(keys, 4, [o] + (Nulls(11) + ([o'] + [])));
    var vout := Nulls(4) + ([o] + (Nulls(11) + ([o'] + [])));
    assert |vout| == 17 && vout[16] == o' && vout[4] == o;
    SecondMask(vout);
    assert Code(true, false, false, 2) == 9;
    var a, b := [0x86, 0xef, 0x97, 0xd5, 0x79, 0x00] + hash, [0xbb, 0xd1, 0x23, 0x00] + hash';
    assert [0x86, 0xef, 0x97, 0xd5, 0x79] + [0] + hash == a;
    assert [0xbb, 0xd1, 0x23] + [0] + hash' == b;
    assert a + (b + []) == a + b;
    var outs := a + b;
    assert [0x01] + ([0x09] + ([0x04, 0x40] + (outs + [0x86, 0xaf, 0x3b]))) == [0x01, 0x09, 0x04, 0x40] + outs + [0x86, 0xaf, 0x3b];
  }

  lemma SecondNumbers()
    ensures VarInt(1) == [0x01] && VarInt(9) == [0x09] && VarInt(120891) == [0x86, 0xaf, 0x3b]
    ensures WellFormed([0x86, 0xef, 0x97, 0xd5, 0x79]) && Meaning([0x86, 0xef, 0x97, 0xd5, 0x79]) == Compress(234_925_952)
    ensures WellFormed([0xbb, 0xd1, 0x23]) && Meaning([0xbb, 0xd1, 0x23]) == Compress(110_397)
  {
    hide VarInt, Meaning, Compress;
    MeaningUpToFive([0x01]);
    MeaningUpToFive([0x09]);
    MeaningUpToFive([0x86, 0xaf, 0x3b]);
    MeaningUpToFive([0x86, 0xef, 0x97, 0xd5, 0x79]);
    MeaningUpToFive([0xbb, 0xd1, 0x23]);
    VarIntUnique([0x01]);
    VarIntUnique([0x09]);
    VarIntUnique([0x86, 0xaf, 0x3b]);
    assert Pow10(0) == 1;
    CompressIs(23_492_595, 2, 0);
    CompressIs(11_039, 7, 0);
  }

  /** Only outputs 4 and 16 of 17 are unspent: bits 2 and 14 of the mask. */
  lemma SecondMask(vout: seq<TxOut>)
    requires |vout| == 17 && forall i :: 0 <= i < 17 ==> (vout[i].IsNull() <==> i != 4 && i != 16)
    ensures MaskBytes(vout) == 2 && MaskSize(vout, 2) == (2, 2) && MaskFrom(vout, 0, 2) == [0x04, 0x40]
  {
    var a, b := Avail(vout, 2, 8), Avail(vout, 10, 8);
    assert a == [false, false, true, false, false, false, false, false];
    assert b == [false, false, false, false, false, false, true, false];
    ByteOfEight(a);
    ByteOfEight(b);
    assert MaskByte(vout, 0) == 4 && MaskByte(vout, 1) == 64;
    hide MaskByte;
    assert MaskSize(vout, 0) == (0, 0);
    assert MaskSize(vout, 1) == (1, 1);
    assert MaskFrom(vout, 2, 2) == [];
    assert MaskFrom(vout, 1, 2) == [64];
  }

  lemma ByteOfEight(a: seq<bool>)
    requires |a| == 8
    ensures ByteOf(a) == (if a[0] then 1 else 0) + (if a[1] then 2 else 0) + (if a[2] then 4 else 0) + (if a[3] then 8 else 0)
      + (if a[4] then 16 else 0) + (if a[5] then 32 else 0) + (if a[6] then 64 else 0) + (if a[7] then 128 else 0)
  {
    ByteOfFour(a);
    ByteOfFour(a[4..]);
    assert ByteOf(a[4..][4..]) == 0;
  }

  lemma ByteOfFour(a: seq<bool>)
    requires |a| >= 4
    ensures ByteOf(a) == (if a[0] then 1 else 0) + (if a[1] then 2 else 0) + (if a[2] then 4 else 0) + (if a[3] then 8 else 0) + 16 * ByteOf(a[4..])
  {
    assert a[1..][1..] == a[2..] && a[2..][1..] == a[3..] && a[3..][1..] == a[4..];
    ByteStep(a);
    ByteStep(a[1..]);
    ByteStep(a[2..]);
    ByteStep(a[3..]);
  }

  lemma ByteStep(a: seq<bool>)
    requires a != []
    ensures ByteOf(a) == (if a[0] then 1 else 0) + 2 * ByteOf(a[1..])
  {
  }
}
