/** A stack of write-back caches over a database, each entry flagged DIRTY and FRESH, which must always
    agree with a stack of plain maps. */
module CoinsCache {
  import opened Base
  import opened Coins

  /** Dirty: may differ from the parent's version. Fresh: the parent has no unspent output of it. */
  datatype Entry = Entry(coins: Coins, isDirty: bool, isFresh: bool)

  /** A block hash; zero is the null hash. */
  type Hash = nat

  datatype Layer = Layer(entries: map<Txid, Entry>, best: Hash)

  /** The unspent outputs a record stands for: a pruned one stands for none. */
  function Norm(c: Coins): Option<Coins> {
    if c.IsPruned() then None else Some(c)
  }

  /** What the top of a stack of layers over a database says about a transaction. */
  ghost function Lookup(db: View, layers: seq<Layer>, t: Txid): Option<Coins> {
    if layers == [] then
      if t in db then Norm(db[t]) else None
    else
      var top := layers[|layers| - 1];
      if t in top.entries then Norm(top.entries[t].coins) else Lookup(db, layers[..|layers| - 1], t)
  }

  /** What the flags of one entry at level k promise about the levels below it. */
  ghost predicate EntryOk(db: View, layers: seq<Layer>, k: nat, t: Txid)
    requires k < |layers| && t in layers[k].entries
  {
    var e := layers[k].entries[t];
    && e.coins.IsTrimmed()
    && (e.isFresh ==> Lookup(db, layers[..k], t) == None)
    && (!e.isDirty ==> Norm(e.coins) == Lookup(db, layers[..k], t))
    && (!e.isFresh && k > 0 ==> t in layers[k - 1].entries)
  }

  ghost predicate StackOk(db: View, layers: seq<Layer>) {
    && (forall t :: t in db ==> db[t].IsTrimmed())
    && (forall k, t {:trigger EntryOk(db, layers, k, t)} ::
          0 <= k < |layers| && t in layers[k].entries ==> EntryOk(db, layers, k, t))
  }

  /** A plain map says the same as the stack. */
  ghost predicate Represents(m: View, db: View, layers: seq<Layer>) {
    forall t :: Lookup(db, layers, t) == (if t in m then Some(m[t]) else None)
  }

  /** One plain map per level. */
  ghost predicate AllRepresented(views: seq<View>, db: View, layers: seq<Layer>) {
    |views| == |layers| + 1 && forall k :: 0 <= k <= |layers| ==> Represents(views[k], db, layers[..k])
  }

  // ---------- levels do not depend on what is above them ----------

  lemma LookupStep(db: View, layers: seq<Layer>, k: nat, t: Txid)
    requires k < |layers|
    ensures Lookup(db, layers[..k + 1], t) ==
            (if t in layers[k].entries then Norm(layers[k].entries[t].coins) else Lookup(db, layers[..k], t))
  {
    assert layers[..k + 1][..k] == layers[..k];
  }

  lemma LookupWhole(db: View, layers: seq<Layer>, t: Txid)
    ensures Lookup(db, layers, t) == Lookup(db, layers[..|layers|], t)
  {
    assert layers[..|layers|] == layers;
  }

  /** Layers with equal entries say the same, whatever their best block fields hold. */
  lemma {:induction false} LookupSame(db: View, a: seq<Layer>, b: seq<Layer>, j: nat, t: Txid)
    requires |a| == |b| && j <= |a|
    requires forall i :: 0 <= i < j ==> a[i].entries == b[i].entries
    ensures Lookup(db, a[..j], t) == Lookup(db, b[..j], t)
  {
    if j > 0 {
      LookupSame(db, a, b, j - 1, t);
      LookupStep(db, a, j - 1, t);
      LookupStep(db, b, j - 1, t);
    }
  }

  // ---------- filling a cache on a read ----------

  function Filled(layers: seq<Layer>, k: nat, t: Txid, e: Entry): seq<Layer>
    requires k < |layers|
  {
    layers[k := layers[k].(entries := layers[k].entries[t := e])]
  }

  /** Copying an entry up from below changes nothing that any level says. */
  lemma {:induction false} FillKeepsLookup(db: View, layers: seq<Layer>, k: nat, t: Txid, e: Entry, j: nat, u: Txid)
    requires k < |layers| && t !in layers[k].entries && Norm(e.coins) == Lookup(db, layers[..k], t) && j <= |layers|
    ensures Lookup(db, Filled(layers, k, t, e)[..j], u) == Lookup(db, layers[..j], u)
  {
    var layers' := Filled(layers, k, t, e);
    if j > 0 {
      FillKeepsLookup(db, layers, k, t, e, j - 1, u);
      LookupStep(db, layers, j - 1, u);
      LookupStep(db, layers', j - 1, u);
      assert j - 1 == k ==> layers'[..k] == layers[..k];
    }
  }

  lemma FillKeepsViews(views: seq<View>, db: View, layers: seq<Layer>, k: nat, t: Txid, e: Entry)
    requires AllRepresented(views, db, layers)
    requires k < |layers| && t !in layers[k].entries && Norm(e.coins) == Lookup(db, layers[..k], t)
    ensures AllRepresented(views, db, Filled(layers, k, t, e))
  {
    hide Lookup;
    var layers' := Filled(layers, k, t, e);
    forall j | 0 <= j <= |layers'| ensures Represents(views[j], db, layers'[..j]) {
      assert Represents(views[j], db, layers[..j]);
      forall u ensures Lookup(db, layers'[..j], u) == Lookup(db, layers[..j], u) {
        FillKeepsLookup(db, layers, k, t, e, j, u);
      }
    }
  }

  lemma FillKeepsStack(db: View, layers: seq<Layer>, k: nat, t: Txid, e: Entry)
    requires StackOk(db, layers) && k < |layers| && t !in layers[k].entries
    requires Norm(e.coins) == Lookup(db, layers[..k], t) && e.coins.IsTrimmed()
    requires e.isFresh <==> e.coins.IsPruned()
    requires !e.isFresh && k > 0 ==> t in layers[k - 1].entries
    ensures StackOk(db, Filled(layers, k, t, e))
  {
    var layers' := Filled(layers, k, t, e);
    forall j, u | 0 <= j < |layers'| && u in layers'[j].entries ensures EntryOk(db, layers', j, u) {
      FillKeepsLookup(db, layers, k, t, e, j, u);
      if !(j == k && u == t) {
        assert EntryOk(db, layers, j, u);
      }
    }
  }

  // ---------- writing at the top ----------

  /** The top layer with its entry for t replaced, or removed when nothing needs to be remembered. */
  function TopWritten(layers: seq<Layer>, t: Txid, e: Entry): (r: seq<Layer>)
    requires layers != []
    ensures |r| == |layers|
  {
    var n := |layers| - 1;
    var entries := layers[n].entries;
    layers[n := layers[n].(entries := if e.isFresh && e.coins.IsPruned() then entries - {t} else entries[t := e])]
  }

  lemma TopWriteKeepsStack(db: View, layers: seq<Layer>, t: Txid, e: Entry)
    requires StackOk(db, layers) && layers != [] && t in layers[|layers| - 1].entries
    requires e.isDirty && e.isFresh == layers[|layers| - 1].entries[t].isFresh && e.coins.IsTrimmed()
    ensures StackOk(db, TopWritten(layers, t, e))
    ensures forall j, u :: 0 <= j < |layers| ==>
              Lookup(db, TopWritten(layers, t, e)[..j], u) == Lookup(db, layers[..j], u)
    ensures Lookup(db, TopWritten(layers, t, e), t) == Norm(e.coins)
    ensures forall u :: u != t ==> Lookup(db, TopWritten(layers, t, e), u) == Lookup(db, layers, u)
  {
    var layers' := TopWritten(layers, t, e);
    var n := |layers| - 1;
    assert layers'[..n] == layers[..n];
    assert EntryOk(db, layers, n, t);
    forall j, u | 0 <= j < |layers'| && u in layers'[j].entries ensures EntryOk(db, layers', j, u) {
      assert layers'[..j] == layers[..j];
      if !(j == n && u == t) {
        assert EntryOk(db, layers, j, u);
      }
    }
    forall j, u | 0 <= j < |layers| ensures Lookup(db, layers'[..j], u) == Lookup(db, layers[..j], u) {
      assert layers'[..j] == layers[..j];
    }
  }

  // ---------- writing a layer back into its parent ----------

  /** What becomes of the parent's entry when the child's entry c is written back. */
  function MergeEntry(p: Option<Entry>, c: Entry): Option<Entry> {
    if !c.isDirty then p
    else match p
      case None => if c.coins.IsPruned() then None else Some(Entry(c.coins, true, true))
      case Some(e) => if e.isFresh && c.coins.IsPruned() then None else Some(Entry(c.coins, true, e.isFresh))
  }

  function EntryAt(entries: map<Txid, Entry>, t: Txid): Option<Entry> {
    if t in entries then Some(entries[t]) else None
  }

  /** The parent's entries after all of the child's have been written back. */
  ghost predicate Merged(parent: map<Txid, Entry>, child: map<Txid, Entry>, after: map<Txid, Entry>) {
    forall t :: EntryAt(after, t) == (if t in child then MergeEntry(EntryAt(parent, t), child[t]) else EntryAt(parent, t))
  }

  /** The stack after the top layer has been written back into the one below and emptied. */
  ghost predicate FlushedInto(layers: seq<Layer>, layers': seq<Layer>) {
    && |layers| >= 2 && |layers'| == |layers|
    && var n := |layers| - 1;
    && layers'[..n - 1] == layers[..n - 1]
    && Merged(layers[n - 1].entries, layers[n].entries, layers'[n - 1].entries)
    && layers'[n].entries == map[]
  }

  /** An entry whose parent has no entry is fresh: the assertion made on writing it back cannot fail. */
  lemma OrphanIsFresh(db: View, layers: seq<Layer>, t: Txid)
    requires StackOk(db, layers) && |layers| >= 2 && t in layers[|layers| - 1].entries
    requires t !in layers[|layers| - 2].entries
    ensures layers[|layers| - 1].entries[t].isFresh
  {
    assert EntryOk(db, layers, |layers| - 1, t);
  }

  /** After the write-back the parent says what the child said, also about what was dropped as redundant. */
  lemma FlushMovesView(db: View, layers: seq<Layer>, layers': seq<Layer>, t: Txid)
    requires StackOk(db, layers) && FlushedInto(layers, layers')
    ensures Lookup(db, layers'[..|layers| - 1], t) == Lookup(db, layers, t)
    ensures Lookup(db, layers', t) == Lookup(db, layers, t)
  {
    hide Lookup;
    var n := |layers| - 1;
    assert layers'[..n - 1] == layers[..n - 1];
    LookupWhole(db, layers, t);
    LookupWhole(db, layers', t);
    LookupStep(db, layers, n, t);
    LookupStep(db, layers', n, t);
    LookupStep(db, layers, n - 1, t);
    LookupStep(db, layers', n - 1, t);
    if t in layers[n].entries {
      assert EntryOk(db, layers, n, t);
    }
    if t in layers[n - 1].entries {
      assert EntryOk(db, layers, n - 1, t);
    }
    assert EntryAt(layers'[n - 1].entries, t) ==
      (if t in layers[n].entries then MergeEntry(EntryAt(layers[n - 1].entries, t), layers[n].entries[t])
       else EntryAt(layers[n - 1].entries, t));
  }

  lemma FlushKeepsParentEntry(db: View, layers: seq<Layer>, layers': seq<Layer>, t: Txid)
    requires StackOk(db, layers) && FlushedInto(layers, layers') && t in layers'[|layers| - 2].entries
    ensures EntryOk(db, layers', |layers| - 2, t)
  {
    var n := |layers| - 1;
    assert layers'[..n - 1] == layers[..n - 1];
    LookupStep(db, layers, n - 1, t);
    assert EntryAt(layers'[n - 1].entries, t) ==
      (if t in layers[n].entries then MergeEntry(EntryAt(layers[n - 1].entries, t), layers[n].entries[t])
       else EntryAt(layers[n - 1].entries, t));
    if t in layers[n].entries {
      assert EntryOk(db, layers, n, t);
    }
    if t in layers[n - 1].entries {
      assert EntryOk(db, layers, n - 1, t);
    }
    assert n - 1 > 0 ==> layers'[n - 2] == layers[n - 2];
  }

  lemma FlushKeepsStack(db: View, layers: seq<Layer>, layers': seq<Layer>)
    requires StackOk(db, layers) && FlushedInto(layers, layers')
    ensures StackOk(db, layers')
  {
    var n := |layers| - 1;
    forall j, t | 0 <= j < |layers'| && t in layers'[j].entries ensures EntryOk(db, layers', j, t) {
      if j == n - 1 {
        FlushKeepsParentEntry(db, layers, layers', t);
      } else {
        assert j < n - 1;
        assert layers'[j] == layers'[..n - 1][j] == layers[j];
        assert j > 0 ==> layers'[j - 1] == layers'[..n - 1][j - 1] == layers[j - 1];
        assert layers'[..j] == layers'[..n - 1][..j] == layers[..j];
        assert EntryOk(db, layers, j, t);
      }
    }
  }

  /** What the database says after a layer has been written into it. */
  ghost predicate WrittenToDb(db: View, child: map<Txid, Entry>, db': View) {
    forall t :: (if t in db' then Some(db'[t]) else None) ==
                (if t in child && child[t].isDirty then Norm(child[t].coins) else if t in db then Some(db[t]) else None)
  }

  /** Writing the only layer into the database moves its view there. */
  lemma DbWriteMovesView(db: View, layer: Layer, db': View, empty: Layer)
    requires StackOk(db, [layer]) && WrittenToDb(db, layer.entries, db') && empty.entries == map[]
    ensures StackOk(db', [empty])
    ensures forall t :: Lookup(db', [], t) == Lookup(db, [layer], t) && Lookup(db', [empty], t) == Lookup(db, [layer], t)
  {
    forall t ensures Lookup(db', [], t) == Lookup(db, [layer], t) && Lookup(db', [empty], t) == Lookup(db, [layer], t) {
      LookupStep(db, [layer], 0, t);
      LookupStep(db', [empty], 0, t);
      LookupWhole(db, [layer], t);
      LookupWhole(db', [empty], t);
      assert [layer][..0] == [] && [empty][..0] == [];
      if t in layer.entries {
        assert EntryOk(db, [layer], 0, t);
      }
    }
    forall t | t in db' ensures db'[t].IsTrimmed() {
      if t in layer.entries && layer.entries[t].isDirty {
        assert EntryOk(db, [layer], 0, t);
      }
    }
  }

  // ---------- the best block ----------

  /** The best block a stack of layers stands for: a layer that has none asks the one below. */
  ghost function BestOf(dbBest: Hash, layers: seq<Layer>): Hash {
    if layers == [] then dbBest
    else if layers[|layers| - 1].best != 0 then layers[|layers| - 1].best
    else BestOf(dbBest, layers[..|layers| - 1])
  }

  lemma BestStep(dbBest: Hash, layers: seq<Layer>, k: nat)
    requires k < |layers|
    ensures BestOf(dbBest, layers[..0]) == dbBest
    ensures BestOf(dbBest, layers[..k + 1]) == (if layers[k].best != 0 then layers[k].best else BestOf(dbBest, layers[..k]))
  {
    assert layers[..k + 1][..k] == layers[..k];
  }

  /** The best block fields after the top layer has been written back: its own field replaces the
      parent's even when it is null; only the database ignores a null one. */
  function FlushedBest(dbBest: Hash, layers: seq<Layer>): (Hash, seq<Layer>)
    requires layers != []
  {
    var n := |layers| - 1;
    if n == 0 then (if layers[0].best != 0 then layers[0].best else dbBest, layers)
    else (dbBest, layers[n - 1 := layers[n - 1].(best := layers[n].best)])
  }

  /** Flushing hands the best block down exactly when the top layer has one of its own, or when the
      parent's is no news to the levels below it. */
  lemma FlushBestIff(dbBest: Hash, layers: seq<Layer>)
    requires layers != []
    ensures var (dbBest', layers') := FlushedBest(dbBest, layers);
      var n := |layers| - 1;
      BestOf(dbBest', layers'[..n]) == BestOf(dbBest, layers) <==>
        layers[n].best != 0 || n == 0 || BestOf(dbBest, layers[..n]) == BestOf(dbBest, layers[..n - 1])
  {
    var n := |layers| - 1;
    var (dbBest', layers') := FlushedBest(dbBest, layers);
    if n > 0 {
      assert layers'[..n][..n - 1] == layers[..n - 1];
      assert layers[..n][..n - 1] == layers[..n - 1];
    }
  }

  /** Flushing a layer that was never given a best block loses the one its parent had. */
  lemma FlushForgetsBest()
    ensures var layers := [Layer(map[], 7), Layer(map[], 0)];
      var (dbBest', layers') := FlushedBest(5, layers);
      BestOf(5, layers) == 7 && BestOf(dbBest', layers'[..1]) == 5
  {
    var layers := [Layer(map[], 7), Layer(map[], 0)];
    var (dbBest', layers') := FlushedBest(5, layers);
    assert layers[..1] == [Layer(map[], 7)];
    assert layers'[..1] == [Layer(map[], 0)];
    assert layers'[..1][..0] == [];
  }

  /** What can be done to a stack of caches, all writes going to the top. */
  datatype Op = PushCache | DropCache | Read(t: Txid) | Write(t: Txid, c: Coins) | FlushCache

  /** The same on a stack of plain maps, the lowest being the database. */
  ghost function PlainStep(views: seq<View>, op: Op): (r: seq<View>)
    requires views != []
    ensures r != []
  {
    var n := |views| - 1;
    match op
    case PushCache => views + [views[n]]
    case DropCache => if n == 0 then views else views[..n]
    case Read(_) => views
    case Write(t, c) => if n == 0 then views else views[n := Put(views[n], t, c)]
    case FlushCache => if n == 0 then views else views[n - 1 := views[n]]
  }

  ghost function PlainRun(views: seq<View>, ops: seq<Op>): seq<View>
    requires views != []
    decreases |ops|
  {
    if ops == [] then views else PlainRun(PlainStep(views, ops[0]), ops[1..])
  }

  class CoinsStack {
    var db: View
    var dbBest: Hash
    var layers: seq<Layer>
    var modifying: Option<Txid>
    ghost var views: seq<View>  // views[k] is what the lowest k layers over the database stand for

    ghost predicate Valid()
      reads this
    {
      && StackOk(db, layers)
      && AllRepresented(views, db, layers)
      && (modifying.Some? ==> layers != [] && modifying.value in layers[|layers| - 1].entries
                              && layers[|layers| - 1].entries[modifying.value].isDirty)
    }

    ghost function Top(): View
      requires |views| > 0
      reads this
    {
      views[|views| - 1]
    }

    constructor (db: View, best: Hash)
      requires ViewOk(db)
      ensures Valid() && modifying == None && layers == [] && views == [db] && dbBest == best
    {
      this.db, dbBest, layers, modifying, views := db, best, [], None, [db];
    }

    /** A new cache on top, which at first says what the one below says. */
    method Push()
      requires Valid() && modifying == None
      modifies this
      ensures Valid() && modifying == None && views == old(views) + [old(Top())]
      ensures db == old(db) && dbBest == old(dbBest) && layers == old(layers) + [Layer(map[], 0)]
    {
      ghost var before := layers;
      layers := layers + [Layer(map[], 0)];
      views := views + [Top()];
      forall k, t | 0 <= k < |layers| && t in layers[k].entries ensures EntryOk(db, layers, k, t) {
        assert layers[..k] == before[..k];
        assert EntryOk(db, before, k, t);
      }
      forall k | 0 <= k <= |layers| ensures Represents(views[k], db, layers[..k]) {
        if k < |layers| {
          assert layers[..k] == before[..k];
        } else {
          assert layers[..k][..k - 1] == before[..k - 1];
        }
      }
    }

    /** Dropping the top cache without flushing forgets its changes and nothing else. */
    method Pop()
      requires Valid() && modifying == None && layers != []
      modifies this
      ensures Valid() && modifying == None && views == old(views)[..|old(views)| - 1]
      ensures db == old(db) && dbBest == old(dbBest) && layers == old(layers)[..|old(layers)| - 1]
    {
      ghost var before := layers;
      layers := layers[..|layers| - 1];
      views := views[..|views| - 1];
      forall k, t | 0 <= k < |layers| && t in layers[k].entries ensures EntryOk(db, layers, k, t) {
        assert layers[..k] == before[..k];
        assert EntryOk(db, before, k, t);
      }
      forall k | 0 <= k <= |layers| ensures Represents(views[k], db, layers[..k]) {
        assert layers[..k] == before[..k];
      }
    }

    /** Looks a transaction up at level k, filling the caches on the way; no level says anything else than before. */
    method FetchCoins(k: nat, t: Txid) returns (r: Option<Coins>)
      requires Valid() && k < |layers|
      modifies this`layers
      ensures Valid() && layers[k + 1..] == old(layers)[k + 1..]
      ensures AllFilled(old(layers), layers)
      ensures r.None? ==> t !in views[k + 1] && t !in layers[k].entries
      ensures r.Some? ==> t in layers[k].entries && layers[k].entries[t].coins == r.value && r.value.IsTrimmed()
      ensures r.Some? ==> Norm(r.value) == (if t in views[k + 1] then Some(views[k + 1][t]) else None)
      decreases k
    {
      hide StackOk, Lookup, EntryOk, OnlyFilled;
      assert AllFilled(layers, layers) by { NothingFilled(layers); }
      LookupStep(db, layers, k, t);
      assert Represents(views[k + 1], db, layers[..k + 1]);
      if t in layers[k].entries {
        TrimmedAt(db, layers, k, t);
        return Some(layers[k].entries[t].coins);
      }
      var below: Option<Coins>;
      if k == 0 {
        below := if t in db then Some(db[t]) else None;
        DbLookup(db, layers, t);
      } else {
        below := FetchCoins(k - 1, t);
      }
      assert Represents(views[k], db, layers[..k]);
      LookupStep(db, layers, k, t);
      assert t !in layers[k].entries by { assert layers[k] == old(layers)[k..][0]; }
      assert Represents(views[k + 1], db, layers[..k + 1]);
      if below.None? {
        return None;
      }
      var e := Entry(below.value, false, below.value.IsPruned());
      ghost var before := layers;
      FilledOnce(old(layers), layers, k, t, e);
      layers := Filled(layers, k, t, e);
      FillKeepsStack(db, before, k, t, e);
      FillKeepsViews(views, db, before, k, t, e);
      r := below;
    }

    /** Reading through the top cache. */
    method AccessCoins(t: Txid) returns (r: Option<Coins>)
      requires Valid() && layers != []
      modifies this`layers
      ensures Valid() && |layers| == |old(layers)|
      ensures AllFilled(old(layers), layers)
      ensures (if r.Some? then Norm(r.value) else None) == (if t in Top() then Some(Top()[t]) else None)
      ensures r.Some? ==> r.value.IsTrimmed()
    {
      r := FetchCoins(|layers| - 1, t);
    }

    /** The cheap test for an empty output list is exact, since records are kept trimmed. */
    method HaveCoins(t: Txid) returns (have: bool)
      requires Valid() && layers != []
      modifies this`layers
      ensures Valid() && |layers| == |old(layers)|
      ensures have <==> t in Top()
    {
      var r := AccessCoins(t);
      have := r.Some? && r.value.vout != [];
      if r.Some? {
        TrimmedEmptyIsPruned(r.value);
      }
    }

    /** Starts modifying the record of t in the top cache; only one may be modified at a time. */
    method ModifyCoins(t: Txid) returns (c: Coins)
      requires Valid() && modifying == None && layers != []
      modifies this`layers, this`modifying
      ensures Valid() && modifying == Some(t) && |layers| == |old(layers)|
      ensures Norm(c) == (if t in Top() then Some(Top()[t]) else None)
      ensures c.IsTrimmed() && (t !in Top() ==> c.IsPruned())
    {
      hide StackOk, Lookup, EntryOk;
      var n := |layers| - 1;
      if t in layers[n].entries {
        c := layers[n].entries[t].coins;
        TrimmedAt(db, layers, n, t);
        LookupStep(db, layers, n, t);
        assert Represents(views[n + 1], db, layers[..n + 1]);
        ghost var before := layers;
        layers := layers[n := layers[n].(entries := layers[n].entries[t := Entry(c, true, layers[n].entries[t].isFresh)])];
        DirtyKeepsAll(db, before, layers, views, t);
      } else {
        var below: Option<Coins>;
        if n == 0 {
          below := if t in db then Some(db[t]) else None;
          DbLookup(db, layers, t);
        } else {
          below := FetchCoins(n - 1, t);
        }
        assert layers[n] == layers[n..][0] == old(layers)[n];
        assert Represents(views[n], db, layers[..n]) && Represents(views[n + 1], db, layers[..n + 1]);
        LookupStep(db, layers, n, t);
        c := if below.Some? then below.value else EMPTY_COINS;
        ghost var before := layers;
        layers := Filled(layers, n, t, Entry(c, true, c.IsPruned()));
        ghost var clean := Filled(before, n, t, Entry(c, false, c.IsPruned()));
        FillKeepsAll(db, before, views, n, t, Entry(c, false, c.IsPruned()));
        assert clean[n].entries[t := Entry(c, true, c.IsPruned())] == layers[n].entries;
        DirtyKeepsAll(db, clean, layers, views, t);
      }
      modifying := Some(t);
    }

    /** Ends the modification: the record is trimmed, and forgotten if it is pruned and the parent never had it. */
    method ReleaseModifier(c: Coins)
      requires Valid() && modifying.Some?
      modifies this
      ensures Valid() && modifying == None && |layers| == |old(layers)|
      ensures db == old(db) && dbBest == old(dbBest)
      ensures views == old(views)[..|layers|] + [Put(old(Top()), old(modifying.value), c)]
    {
      hide StackOk, Lookup, EntryOk;
      var t := modifying.value;
      var n := |layers| - 1;
      var vout := Cleanup(c.vout);
      var c' := c.(vout := vout);
      assert c' == Trimmed(c);
      var e := Entry(c', true, layers[n].entries[t].isFresh);
      ghost var before, viewsBefore := layers, views;
      layers := TopWritten(layers, t, e);
      views := views[..|layers|] + [Put(Top(), t, c)];
      modifying := None;
      TopWriteKeepsStack(db, before, t, e);
      forall k | 0 <= k <= |layers| ensures Represents(views[k], db, layers[..k]) {
        assert Represents(viewsBefore[k], db, before[..k]);
        if k == |layers| {
          assert layers[..k] == layers && before[..k] == before;
        }
      }
    }

    /** Writes the entries of the layer above, which is the top, into layer k. */
    method BatchWrite(k: nat, child: map<Txid, Entry>, best: Hash)
      requires k + 2 == |layers| && child == layers[k + 1].entries && StackOk(db, layers)
      modifies this`layers
      ensures |layers| == |old(layers)| && layers[..k] == old(layers)[..k] && layers[k + 1] == old(layers)[k + 1]
      ensures Merged(old(layers)[k].entries, child, layers[k].entries) && layers[k].best == best
    {
      hide StackOk, EntryOk;
      var ours := layers[k].entries;
      var todo := child.Keys;
      while todo != {}
        invariant todo <= child.Keys && layers == old(layers)
        invariant forall t :: EntryAt(ours, t) ==
                    (if t in child && t !in todo then MergeEntry(EntryAt(layers[k].entries, t), child[t])
                     else EntryAt(layers[k].entries, t))
        decreases todo
      {
        var t :| t in todo;
        var it := child[t];
        assert EntryAt(ours, t) == EntryAt(layers[k].entries, t);
        ghost var before := ours;
        if it.isDirty {
          if t !in ours {
            if !it.coins.IsPruned() {
              OrphanIsFresh(db, layers, t);
              assert it.isFresh;
              ours := ours[t := Entry(it.coins, true, true)];
            }
          } else if ours[t].isFresh && it.coins.IsPruned() {
            ours := ours - {t};
          } else {
            ours := ours[t := Entry(it.coins, true, ours[t].isFresh)];
          }
        }
        assert forall u :: u != t ==> EntryAt(ours, u) == EntryAt(before, u);
        todo := todo - {t};
      }
      layers := layers[k := Layer(ours, best)];
    }

    method WriteToDb(child: map<Txid, Entry>, best: Hash)
      modifies this`db, this`dbBest
      ensures WrittenToDb(old(db), child, db)
      ensures dbBest == (if best != 0 then best else old(dbBest))
    {
      var todo := child.Keys;
      while todo != {}
        invariant todo <= child.Keys && dbBest == old(dbBest)
        invariant forall t :: (if t in db then Some(db[t]) else None) ==
                    (if t in child && t !in todo && child[t].isDirty then Norm(child[t].coins)
                     else if t in old(db) then Some(old(db)[t]) else None)
        decreases todo
      {
        var t :| t in todo;
        if child[t].isDirty {
          db := if child[t].coins.IsPruned() then db - {t} else db[t := child[t].coins];
        }
        todo := todo - {t};
      }
      if best != 0 {
        dbBest := best;
      }
    }

    /** Pushes all changes of the top cache one level down: that level now says what the top said, and so
        does the emptied top. */
    method Flush()
      requires Valid() && modifying == None && layers != []
      modifies this
      ensures Valid() && modifying == None && |layers| == |old(layers)|
      ensures views == old(views)[|layers| - 1 := old(Top())]
      ensures layers[|layers| - 1] == old(layers)[|layers| - 1].(entries := map[])
      ensures dbBest == FlushedBest(old(dbBest), old(layers)).0
      ensures forall i :: 0 <= i < |layers| ==> layers[i].best == FlushedBest(old(dbBest), old(layers)).1[i].best
    {
      hide StackOk, Lookup, EntryOk, Merged, WrittenToDb;
      var n := |layers| - 1;
      ghost var before, viewsBefore := layers, views;
      views := views[n := Top()];
      if n == 0 {
        ghost var dbBefore := db;
        WriteToDb(layers[0].entries, layers[0].best);
        layers := [layers[0].(entries := map[])];
        FlushedDbViews(dbBefore, before, db, layers, viewsBefore);
      } else {
        BatchWrite(n - 1, layers[n].entries, layers[n].best);
        layers := layers[n := layers[n].(entries := map[])];
        FlushedViews(db, before, layers, viewsBefore);
      }
    }

    /** The best block the top stands for, remembered on the way down. */
    method GetBestBlock(k: nat) returns (h: Hash)
      requires Valid() && k < |layers|
      modifies this`layers
      ensures Valid() && |layers| == |old(layers)|
      ensures forall i :: 0 <= i < |layers| ==> layers[i].entries == old(layers)[i].entries
      ensures layers[k + 1..] == old(layers)[k + 1..]
      ensures h == BestOf(dbBest, old(layers)[..k + 1])
      ensures forall j :: 0 <= j <= |layers| ==> BestOf(dbBest, layers[..j]) == BestOf(dbBest, old(layers)[..j])
      decreases k
    {
      hide StackOk, Lookup, EntryOk, Represents, BestOf;
      BestStep(dbBest, layers, k);
      if layers[k].best == 0 {
        var below;
        if k == 0 {
          below := dbBest;
        } else {
          below := GetBestBlock(k - 1);
          assert layers[..k - 1 + 1] == layers[..k];
        }
        ghost var before := layers;
        assert before[k] == before[k..][0] == old(layers)[k];
        layers := layers[k := layers[k].(best := below)];
        forall j | 0 <= j <= |layers| ensures BestOf(dbBest, layers[..j]) == BestOf(dbBest, old(layers)[..j]) {
          RememberedBest(dbBest, before, k, below, j);
        }
        SameEntriesKeepAll(db, before, layers, views);
      }
      h := layers[k].best;
    }

    method SetBestBlock(h: Hash)
      requires Valid() && layers != []
      modifies this`layers
      ensures Valid() && layers == old(layers)[|layers| - 1 := old(layers)[|layers| - 1].(best := h)]
      ensures h != 0 ==> BestOf(dbBest, layers) == h
    {
      ghost var before := layers;
      layers := layers[|layers| - 1 := layers[|layers| - 1].(best := h)];
      SameEntriesKeepAll(db, before, layers, views);
    }

    method Apply(op: Op)
      requires Valid() && modifying == None && views != []
      modifies this
      ensures Valid() && modifying == None && views != []
      ensures views == PlainStep(old(views), op)
    {
      hide StackOk, Represents;
      match op {
        case PushCache =>
          Push();
        case DropCache =>
          if layers != [] { Pop(); }
        case Read(t) =>
          if layers != [] { var _ := AccessCoins(t); }
        case Write(t, c) =>
          if layers != [] {
            var _ := ModifyCoins(t);
            ReleaseModifier(c);
          }
        case FlushCache =>
          if layers != [] { Flush(); }
      }
    }

    /** Whatever is done to the stack, every level always says what the plain maps say. */
    method Run(ops: seq<Op>)
      requires Valid() && modifying == None && views != []
      modifies this
      ensures Valid() && modifying == None
      ensures views == PlainRun(old(views), ops)
    {
      hide StackOk, AllRepresented, PlainStep;
      var i := 0;
      while i < |ops|
        invariant 0 <= i <= |ops| && Valid() && modifying == None && views != []
        invariant PlainRun(views, ops[i..]) == PlainRun(old(views), ops)
      {
        assert ops[i..][0] == ops[i] && ops[i..][1..] == ops[i + 1..];
        Apply(ops[i]);
        i := i + 1;
      }
    }
  }

  /** A layer that may have gained entries but lost or changed none. */
  ghost predicate OnlyFilled(a: Layer, b: Layer) {
    b.best == a.best && forall t :: t in a.entries ==> t in b.entries && b.entries[t] == a.entries[t]
  }

  ghost predicate AllFilled(a: seq<Layer>, b: seq<Layer>) {
    |a| == |b| && forall j :: 0 <= j < |a| ==> OnlyFilled(a[j], b[j])
  }

  lemma NothingFilled(a: seq<Layer>)
    ensures AllFilled(a, a)
  {
  }

  /** One more fill at level k. */
  lemma FilledOnce(a: seq<Layer>, b: seq<Layer>, k: nat, t: Txid, e: Entry)
    requires AllFilled(a, b) && k < |b| && t !in b[k].entries
    ensures AllFilled(a, Filled(b, k, t, e)) && Filled(b, k, t, e)[k + 1..] == b[k + 1..]
  {
  }

  lemma TrimmedAt(db: View, layers: seq<Layer>, k: nat, t: Txid)
    requires StackOk(db, layers) && k < |layers| && t in layers[k].entries
    ensures layers[k].entries[t].coins.IsTrimmed()
  {
    assert EntryOk(db, layers, k, t);
  }

  lemma TrimmedEmptyIsPruned(c: Coins)
    requires c.IsTrimmed()
    ensures c.IsPruned() <==> c.vout == []
  {
  }

  lemma DbLookup(db: View, layers: seq<Layer>, t: Txid)
    requires StackOk(db, layers)
    ensures Lookup(db, layers[..0], t) == (if t in db then Norm(db[t]) else None)
    ensures t in db ==> db[t].IsTrimmed()
  {
  }

  // ---------- the same for all levels at once ----------

  lemma FillKeepsAll(db: View, layers: seq<Layer>, views: seq<View>, k: nat, t: Txid, e: Entry)
    requires StackOk(db, layers) && AllRepresented(views, db, layers) && k < |layers| && t !in layers[k].entries
    requires Norm(e.coins) == Lookup(db, layers[..k], t) && e.coins.IsTrimmed()
    requires (e.isFresh <==> e.coins.IsPruned()) && (!e.isFresh && k > 0 ==> t in layers[k - 1].entries)
    ensures StackOk(db, Filled(layers, k, t, e)) && AllRepresented(views, db, Filled(layers, k, t, e))
  {
    hide Lookup, StackOk;
    var layers' := Filled(layers, k, t, e);
    FillKeepsStack(db, layers, k, t, e);
    forall j | 0 <= j <= |layers'| ensures Represents(views[j], db, layers'[..j]) {
      assert Represents(views[j], db, layers[..j]);
      forall u ensures Lookup(db, layers'[..j], u) == Lookup(db, layers[..j], u) {
        FillKeepsLookup(db, layers, k, t, e, j, u);
      }
    }
  }

  lemma DirtyKeepsStack(db: View, layers: seq<Layer>, layers': seq<Layer>, t: Txid)
    requires StackOk(db, layers) && layers != [] && t in layers[|layers| - 1].entries
    requires var n := |layers| - 1; var e := layers[n].entries[t];
      layers' == layers[n := layers[n].(entries := layers[n].entries[t := Entry(e.coins, true, e.isFresh)])]
    ensures StackOk(db, layers')
  {
    hide Lookup;
    forall j, u | 0 <= j < |layers'| && u in layers'[j].entries ensures EntryOk(db, layers', j, u) {
      assert layers'[..j] == layers[..j];
      assert EntryOk(db, layers, j, u);
    }
  }

  /** Marking an entry of the top layer as possibly changed is always safe. */
  lemma DirtyKeepsAll(db: View, layers: seq<Layer>, layers': seq<Layer>, views: seq<View>, t: Txid)
    requires StackOk(db, layers) && AllRepresented(views, db, layers)
    requires layers != [] && t in layers[|layers| - 1].entries
    requires var n := |layers| - 1; var e := layers[n].entries[t];
      layers' == layers[n := layers[n].(entries := layers[n].entries[t := Entry(e.coins, true, e.isFresh)])]
    ensures StackOk(db, layers') && AllRepresented(views, db, layers')
  {
    var n := |layers| - 1;
    DirtyKeepsStack(db, layers, layers', t);
    hide StackOk, Lookup;
    forall j | 0 <= j <= |layers'| ensures Represents(views[j], db, layers'[..j]) {
      assert Represents(views[j], db, layers[..j]);
      if j <= n {
        assert layers'[..j] == layers[..j];
      } else {
        forall u ensures Lookup(db, layers'[..j], u) == Lookup(db, layers[..j], u) {
          LookupStep(db, layers, n, u);
          LookupStep(db, layers', n, u);
          assert layers'[..n] == layers[..n];
        }
      }
    }
  }

  /** Only the entries matter for what the levels say. */
  lemma SameEntriesKeepAll(db: View, layers: seq<Layer>, layers': seq<Layer>, views: seq<View>)
    requires StackOk(db, layers) && AllRepresented(views, db, layers) && |layers'| == |layers|
    requires forall i :: 0 <= i < |layers| ==> layers'[i].entries == layers[i].entries
    ensures StackOk(db, layers') && AllRepresented(views, db, layers')
  {
    forall j, u | 0 <= j < |layers'| && u in layers'[j].entries ensures EntryOk(db, layers', j, u) {
      LookupSame(db, layers, layers', j, u);
      assert EntryOk(db, layers, j, u);
    }
    forall j | 0 <= j <= |layers'| ensures Represents(views[j], db, layers'[..j]) {
      assert Represents(views[j], db, layers[..j]);
      forall u ensures Lookup(db, layers'[..j], u) == Lookup(db, layers[..j], u) {
        LookupSame(db, layers, layers', j, u);
      }
    }
  }

  lemma FlushedViews(db: View, layers: seq<Layer>, layers': seq<Layer>, views: seq<View>)
    requires StackOk(db, layers) && AllRepresented(views, db, layers) && FlushedInto(layers, layers')
    ensures StackOk(db, layers') && AllRepresented(views[|layers| - 1 := views[|layers|]], db, layers')
  {
    hide StackOk, Lookup, Merged;
    var n := |layers| - 1;
    FlushKeepsStack(db, layers, layers');
    var views' := views[n := views[n + 1]];
    assert layers[..n + 1] == layers && layers'[..n + 1] == layers';
    forall j | 0 <= j <= |layers'| ensures Represents(views'[j], db, layers'[..j]) {
      assert Represents(views[j], db, layers[..j]) && Represents(views[n + 1], db, layers[..n + 1]);
      if j < n {
        assert layers'[..j] == layers'[..n - 1][..j] == layers[..n - 1][..j] == layers[..j];
      } else {
        forall u ensures Lookup(db, layers'[..j], u) == Lookup(db, layers, u) {
          FlushMovesView(db, layers, layers', u);
        }
      }
    }
  }

  lemma FlushedDbViews(db: View, layers: seq<Layer>, db': View, layers': seq<Layer>, views: seq<View>)
    requires StackOk(db, layers) && AllRepresented(views, db, layers) && |layers| == 1
    requires layers' == [layers[0].(entries := map[])] && WrittenToDb(db, layers[0].entries, db')
    ensures StackOk(db', layers') && AllRepresented(views[0 := views[1]], db', layers')
  {
    hide StackOk, Lookup, WrittenToDb;
    assert layers == [layers[0]];
    DbWriteMovesView(db, layers[0], db', layers'[0]);
    assert Represents(views[1], db, layers[..1]);
    assert layers[..1] == layers && layers'[..1] == layers' && layers'[..0] == [];
  }

  lemma {:induction false} RememberedBest(dbBest: Hash, layers: seq<Layer>, k: nat, h: Hash, j: nat)
    requires k < |layers| && layers[k].best == 0 && h == BestOf(dbBest, layers[..k]) && j <= |layers|
    ensures BestOf(dbBest, layers[k := layers[k].(best := h)][..j]) == BestOf(dbBest, layers[..j])
  {
    var layers' := layers[k := layers[k].(best := h)];
    if j > 0 {
      RememberedBest(dbBest, layers, k, h, j - 1);
      assert layers[..j][..j - 1] == layers[..j - 1];
      assert layers'[..j][..j - 1] == layers'[..j - 1];
      assert j - 1 == k ==> layers'[..k] == layers[..k];
    }
  }
}
