/** Saving the address manager and loading it into a fresh one (src/addrman.h). Ids are not saved: what comes
    back has its ids renumbered and is otherwise the same. */
module AddrFile {
  import opened Base
  import opened AddrTables
  import opened AddrCheck

  /** What is saved of an address. */
  datatype Entry = Entry(service: Service, services: set<nat>, time: nat, source: NetAddr, lastSuccess: int, attempts: int)

  datatype File = File(
    version: nat, keySize: nat, key: nat, nNew: int, nTried: int, bucketField: nat,
    newEntries: seq<Entry>, triedEntries: seq<Entry>, buckets: seq<seq<int>>)

  const VERSION_MARK: nat := 0x4000_0000

  /** Exclusive or with the mark: bit 30 is flipped. */
  function Flipped(x: nat): nat {
    if x / VERSION_MARK % 2 == 0 then x + VERSION_MARK else x - VERSION_MARK
  }

  function Stored(i: Info): Entry {
    Entry(i.service, i.services, i.time, i.source, i.lastSuccess, i.attempts)
  }

  function Restored(e: Entry, inTried: bool, pos: int): Info {
    Info(e.service, e.services, e.time, e.source, 0, e.lastSuccess, e.attempts, 0, inTried, pos)
  }

  // ---------- saving ----------

  /** The ids below k with references, in order; and those in the tried table. */
  function NewList(info: map<Id, Info>, k: nat): seq<Id> {
    if k == 0 then []
    else NewList(info, k - 1) + (if k - 1 in info && info[k - 1].refCount != 0 then [k - 1] else [])
  }

  function TriedList(info: map<Id, Info>, k: nat): seq<Id> {
    if k == 0 then []
    else TriedList(info, k - 1) + (if k - 1 in info && info[k - 1].inTried then [k - 1] else [])
  }

  /** The position in the file of each address with references. */
  function Numbers(info: map<Id, Info>, k: nat): map<Id, nat> {
    if k == 0 then map[]
    else if k - 1 in info then Numbers(info, k - 1)[k - 1 := |NewList(info, k - 1)|]
    else Numbers(info, k - 1)
  }

  function Entries(info: map<Id, Info>, ids: seq<Id>): (r: seq<Entry>)
    requires forall i :: 0 <= i < |ids| ==> ids[i] in info
    ensures |r| == |ids| && forall i :: 0 <= i < |ids| ==> r[i] == Stored(info[ids[i]])
  {
    if ids == [] then [] else Entries(info, ids[..|ids| - 1]) + [Stored(info[ids[|ids| - 1]])]
  }

  /** The first `pos` places of a bucket, as positions in the file. */
  function BucketList(news: map<Slot, Id>, number: map<Id, nat>, bucket: nat, pos: nat): seq<int> {
    if pos == 0 then []
    else BucketList(news, number, bucket, pos - 1) + Place(news, number, Slot(bucket, pos - 1))
  }

  function Place(news: map<Slot, Id>, number: map<Id, nat>, l: Slot): seq<int> {
    if l !in news then [] else if news[l] in number then [number[news[l]]] else [0]
  }

  function BucketLists(news: map<Slot, Id>, number: map<Id, nat>, count: nat): (r: seq<seq<int>>)
    ensures |r| == count
  {
    if count == 0 then []
    else BucketLists(news, number, count - 1) + [BucketList(news, number, count - 1, BUCKET_SIZE)]
  }

  ghost predicate ListOf(ids: seq<Id>, members: set<Id>, k: nat) {
    && (forall i :: 0 <= i < |ids| ==> ids[i] in members && ids[i] < k)
    && (forall i, j :: 0 <= i < j < |ids| ==> ids[i] < ids[j])
    && (forall n :: n in members && n < k ==> n in ids)
  }

  lemma ListNext(ids: seq<Id>, members: set<Id>, k: nat)
    requires ListOf(ids, members, k)
    ensures ListOf(ids + (if k in members then [k] else []), members, k + 1)
  {
    var ids' := ids + (if k in members then [k] else []);
    forall n | n in members && n < k + 1 ensures n in ids' {
      if n == k {
        assert ids'[|ids|] == k;
      } else {
        assert n in ids;
      }
    }
  }

  lemma {:induction false} ListsRight(info: map<Id, Info>, k: nat)
    requires forall n :: n in info ==> (info[n].refCount != 0 <==> !info[n].inTried)
    ensures ListOf(NewList(info, k), NewIds(info), k) && ListOf(TriedList(info, k), TriedIds(info), k)
  {
    if k > 0 {
      ListsRight(info, k - 1);
      ListNext(NewList(info, k - 1), NewIds(info), k - 1);
      ListNext(TriedList(info, k - 1), TriedIds(info), k - 1);
    }
  }

  lemma {:induction false} ListSize(ids: seq<Id>, members: set<Id>, k: nat)
    requires ListOf(ids, members, k) && forall n :: n in members ==> n < k
    ensures |ids| == |members|
    decreases |ids|
  {
    if ids == [] {
      assert forall n :: n in members ==> n in ids;
      assert members == {};
    } else {
      var m := |ids| - 1;
      var rest := members - {ids[m]};
      forall n | n in rest ensures n < ids[m] && n in ids[..m] {
        assert n in ids;
      }
      ListSize(ids[..m], rest, ids[m]);
    }
  }

  lemma {:induction false} NumbersRight(info: map<Id, Info>, k: nat, i: nat)
    requires i < |NewList(info, k)|
    ensures NewList(info, k)[i] in Numbers(info, k) && Numbers(info, k)[NewList(info, k)[i]] == i
    ensures NewList(info, k)[i] < k && NewList(info, k)[i] in info
    decreases k
  {
    if i < |NewList(info, k - 1)| {
      NumbersRight(info, k - 1, i);
    }
  }

  /** What each list of the file holds, given the tables are consistent. */
  lemma ListsOfTables(h: Hashing, s: Tables)
    requires Inv(h, s, {}, 0)
    ensures ListOf(NewList(s.info, s.nIdCount), NewIds(s.info), s.nIdCount)
    ensures ListOf(TriedList(s.info, s.nIdCount), TriedIds(s.info), s.nIdCount)
    ensures |NewList(s.info, s.nIdCount)| == s.nNew && |TriedList(s.info, s.nIdCount)| == s.nTried
    ensures forall i :: 0 <= i < s.nNew ==> NewList(s.info, s.nIdCount)[i] in s.info
    ensures forall i :: 0 <= i < s.nTried ==> TriedList(s.info, s.nIdCount)[i] in s.info
  {
    hide RandomOk, AddrOk, TriedOk, NewList, TriedList;
    forall n | n in s.info ensures s.info[n].refCount != 0 <==> !s.info[n].inTried {
      if s.info[n].inTried {
        TriedHasNoSlots(h, s, {}, 0, n);
      }
    }
    hide NewOk, RefsOk;
    ListsRight(s.info, s.nIdCount);
    ListSize(NewList(s.info, s.nIdCount), NewIds(s.info), s.nIdCount);
    ListSize(TriedList(s.info, s.nIdCount), TriedIds(s.info), s.nIdCount);
  }

  // ---------- loading, step by step ----------

  function Fresh(key: nat, nTried: int, nNew: int): Tables {
    Tables(key, map[], map[], [], map[], map[], nTried, nNew, 0)
  }

  /** One entry of the new table; if the saved slots cannot be used, it is given the slot of its source. */
  function LoadNew(h: Hashing, t: Tables, e: Entry, n: Id, usable: bool): Tables {
    var i := Restored(e, false, |t.random|);
    var t1 := t.(info := t.info[n := i], addr := t.addr[e.service.ip := n], random := t.random + [n]);
    var l := NewSlot(h, t.key, e.service, NewBucket(h, t.key, e.service, e.source));
    if usable || l in t.news then t1
    else t1.(news := t.news[l := n], info := t.info[n := i.(refCount := 1)])
  }

  /** One entry of the tried table; it is lost if its slot is taken. */
  function LoadTried(h: Hashing, t: Tables, e: Entry): Tables {
    var l := TriedSlot(h, t.key, e.service);
    var n := t.nIdCount;
    if l in t.tried then t.(nTried := t.nTried - 1)
    else t.(info := t.info[n := Restored(e, true, |t.random|)], addr := t.addr[e.service.ip := n],
            random := t.random + [n], tried := t.tried[l := n], nIdCount := n + 1)
  }

  /** One reference in a bucket. */
  function LoadRef(h: Hashing, t: Tables, bucket: nat, index: int, usable: bool): Tables {
    if !usable || !(0 <= index < t.nNew) || index !in t.info then t
    else
      var i := t.info[index];
      var l := NewSlot(h, t.key, i.service, bucket);
      if l in t.news || i.refCount >= NEW_BUCKETS_PER_ADDRESS then t
      else t.(info := t.info[index := i.(refCount := i.refCount + 1)], news := t.news[l := index])
  }

  // ---------- the part that has been loaded ----------

  /** Entry i of the loaded tables is entry ids[i] of the saved ones; its references are counted in `news`. */
  ghost predicate InfoPart(s: Tables, ids: seq<Id>, k: nat, news: map<Slot, Id>, info: map<Id, Info>) {
    && k <= |ids|
    && (forall i: nat :: i in info <==> i < k)
    && (forall i: nat :: i in info ==>
          && ids[i] in s.info
          && info[i] == Restored(Stored(s.info[ids[i]]), s.info[ids[i]].inTried, i).(refCount := |Slots(news, i)|))
  }

  ghost predicate AddrPart(s: Tables, ids: seq<Id>, k: nat, addr: map<NetAddr, Id>) {
    && k <= |ids|
    && (forall a :: a in addr <==> a in s.addr && s.addr[a] in ids[..k])
    && (forall a :: a in addr ==> addr[a] < k && ids[addr[a]] == s.addr[a])
  }

  ghost predicate RandomPart(k: nat, random: seq<Id>) {
    |random| == k && forall i :: 0 <= i < k ==> random[i] == i
  }

  ghost predicate TriedPart(s: Tables, ids: seq<Id>, k: nat, tried: map<Slot, Id>) {
    && k <= |ids|
    && (forall l :: l in tried <==> l in s.tried && s.tried[l] in ids[..k])
    && (forall l :: l in tried ==> tried[l] < k && ids[tried[l]] == s.tried[l])
  }

  ghost predicate Part(s: Tables, ids: seq<Id>, k: nat, t: Tables) {
    && InfoPart(s, ids, k, t.news, t.info) && AddrPart(s, ids, k, t.addr) && RandomPart(k, t.random)
    && TriedPart(s, ids, k, t.tried) && t.key == s.key && t.nTried == s.nTried && t.nNew == s.nNew
  }

  ghost predicate Distinct(ids: seq<Id>) {
    forall i, j :: 0 <= i < |ids| && 0 <= j < |ids| && ids[i] == ids[j] ==> i == j
  }

  lemma FreshPart(s: Tables, ids: seq<Id>)
    ensures Part(s, ids, 0, Fresh(s.key, s.nTried, s.nNew))
  {
  }

  lemma AddrNext(h: Hashing, s: Tables, ids: seq<Id>, k: nat, addr: map<NetAddr, Id>)
    requires AddrOk(s.info, s.addr) && AddrPart(s, ids, k, addr) && k < |ids| && ids[k] in s.info && Distinct(ids)
    ensures AddrPart(s, ids, k + 1, addr[s.info[ids[k]].service.ip := k])
  {
    assert ids[..k + 1] == ids[..k] + [ids[k]];
  }

  lemma InfoNext(s: Tables, ids: seq<Id>, k: nat, news: map<Slot, Id>, info: map<Id, Info>, i: Info)
    requires InfoPart(s, ids, k, news, info) && k < |ids| && ids[k] in s.info && Slots(news, k) == {}
    requires i == Restored(Stored(s.info[ids[k]]), s.info[ids[k]].inTried, k)
    ensures InfoPart(s, ids, k + 1, news, info[k := i])
  {
    hide Slots;
  }

  lemma TriedNext(h: Hashing, s: Tables, ids: seq<Id>, k: nat, tried: map<Slot, Id>)
    requires TriedOk(h, s.key, s.info, s.tried) && TriedPart(s, ids, k, tried)
    requires k < |ids| && ids[k] in s.info && s.info[ids[k]].inTried && Distinct(ids)
    ensures TriedSlot(h, s.key, s.info[ids[k]].service) !in tried
    ensures TriedPart(s, ids, k + 1, tried[TriedSlot(h, s.key, s.info[ids[k]].service) := k])
  {
    hide TriedSlot;
    assert ids[..k + 1] == ids[..k] + [ids[k]];
  }

  lemma TriedSame(h: Hashing, s: Tables, ids: seq<Id>, k: nat, tried: map<Slot, Id>)
    requires TriedOk(h, s.key, s.info, s.tried) && TriedPart(s, ids, k, tried)
    requires k < |ids| && ids[k] in s.info && !s.info[ids[k]].inTried
    ensures TriedPart(s, ids, k + 1, tried)
  {
    hide TriedSlot;
    assert ids[..k + 1] == ids[..k] + [ids[k]];
  }

  lemma LoadNewPart(h: Hashing, s: Tables, ids: seq<Id>, k: nat, t: Tables)
    requires Inv(h, s, {}, 0) && Part(s, ids, k, t) && t.news == map[] && Distinct(ids)
    requires k < |ids| && ids[k] in s.info && !s.info[ids[k]].inTried
    ensures Part(s, ids, k + 1, LoadNew(h, t, Stored(s.info[ids[k]]), k, true))
  {
    hide RandomOk, AddrOk, IdsOk, TriedOk, NewOk, RefsOk, CountsOk, InfoPart, AddrPart, TriedPart, Slots;
    AddrNext(h, s, ids, k, t.addr);
    NoSlots(k);
    InfoNext(s, ids, k, t.news, t.info, Restored(Stored(s.info[ids[k]]), false, k));
    TriedSame(h, s, ids, k, t.tried);
  }

  lemma NoSlots(n: Id)
    ensures Slots(map[], n) == {}
  {
  }

  lemma LoadTriedPart(h: Hashing, s: Tables, ids: seq<Id>, k: nat, t: Tables)
    requires Inv(h, s, {}, 0) && Part(s, ids, k, t) && t.news == map[] && Distinct(ids) && t.nIdCount == k
    requires k < |ids| && ids[k] in s.info && s.info[ids[k]].inTried
    ensures var t' := LoadTried(h, t, Stored(s.info[ids[k]])); Part(s, ids, k + 1, t') && t'.nIdCount == k + 1 && t'.news == map[]
  {
    hide RandomOk, AddrOk, IdsOk, TriedOk, NewOk, RefsOk, CountsOk, InfoPart, AddrPart, TriedPart, Slots, TriedSlot;
    AddrNext(h, s, ids, k, t.addr);
    NoSlots(k);
    InfoNext(s, ids, k, t.news, t.info, Restored(Stored(s.info[ids[k]]), true, k));
    TriedNext(h, s, ids, k, t.tried);
  }

  // ---------- the references that have been loaded ----------

  ghost predicate NewsPart(s: Tables, ids: seq<Id>, bucket: nat, pos: nat, news: map<Slot, Id>) {
    && (forall l :: l in news <==> l in s.news && Before(l, bucket, pos))
    && (forall l :: l in news ==> news[l] < |ids| && ids[news[l]] == s.news[l])
  }

  lemma FewerSlots(s: Tables, ids: seq<Id>, bucket: nat, pos: nat, news: map<Slot, Id>, i: nat)
    requires NewsPart(s, ids, bucket, pos, news) && i < |ids|
    requires Slot(bucket, pos) in s.news && s.news[Slot(bucket, pos)] == ids[i]
    ensures |Slots(news, i)| < |Slots(s.news, ids[i])|
  {
    var all, seen, l := Slots(s.news, ids[i]), Slots(news, i), Slot(bucket, pos);
    assert l in all && l !in seen && seen <= all;
    assert all == seen + (all - seen) && l in all - seen;
  }

  lemma InfoCounts(s: Tables, ids: seq<Id>, k: nat, news: map<Slot, Id>, info: map<Id, Info>, l: Slot, i: nat)
    requires InfoPart(s, ids, k, news, info) && i < k && l !in news
    ensures i in info && InfoPart(s, ids, k, news[l := i], Counted(info, i, 1))
  {
    forall j ensures |Slots(news[l := i], j)| == |Slots(news, j)| + (if i == j then 1 else 0) {
      SlotsAdded(news, l, i, j);
    }
    hide Slots;
  }

  lemma NewsNext(s: Tables, ids: seq<Id>, bucket: nat, pos: nat, news: map<Slot, Id>, i: nat)
    requires NewsPart(s, ids, bucket, pos, news)
    ensures Slot(bucket, pos) !in s.news ==> NewsPart(s, ids, bucket, pos + 1, news)
    ensures Slot(bucket, pos) !in news
    ensures Slot(bucket, pos) in s.news && i < |ids| && ids[i] == s.news[Slot(bucket, pos)] ==>
              NewsPart(s, ids, bucket, pos + 1, news[Slot(bucket, pos) := i])
  {
    BeforeNext(bucket, pos);
  }

  lemma LoadRefPart(h: Hashing, s: Tables, ids: seq<Id>, bucket: nat, pos: nat, t: Tables, i: nat)
    requires Inv(h, s, {}, 0) && Part(s, ids, |ids|, t) && NewsPart(s, ids, bucket, pos, t.news)
    requires i < s.nNew && i < |ids| && Slot(bucket, pos) in s.news && s.news[Slot(bucket, pos)] == ids[i]
    ensures var t' := LoadRef(h, t, bucket, i, true);
      && Part(s, ids, |ids|, t') && NewsPart(s, ids, bucket, pos + 1, t'.news)
      && t'.nIdCount == t.nIdCount
  {
    hide RandomOk, AddrOk, IdsOk, TriedOk, RefsOk, CountsOk, AddrPart, TriedPart, Slots, NewsPart, InfoPart, NewSlot;
    var l := Slot(bucket, pos);
    InfoAt(s, ids, |ids|, t.news, t.info, i);
    assert NewSlot(h, s.key, s.info[ids[i]].service, bucket) == l;
    FewerSlots(s, ids, bucket, pos, t.news, i);
    AtMostEight(h, s, ids[i]);
    NewsNext(s, ids, bucket, pos, t.news, i);
    InfoCounts(s, ids, |ids|, t.news, t.info, l, i);
  }

  lemma InfoAt(s: Tables, ids: seq<Id>, k: nat, news: map<Slot, Id>, info: map<Id, Info>, i: nat)
    requires InfoPart(s, ids, k, news, info) && i < k
    ensures i in info && ids[i] in s.info && info[i].service == s.info[ids[i]].service
    ensures info[i].inTried == s.info[ids[i]].inTried && info[i].refCount == |Slots(news, i)|
  {
  }

  lemma AtMostEight(h: Hashing, s: Tables, n: Id)
    requires Inv(h, s, {}, 0) && n in s.info
    ensures |Slots(s.news, n)| <= NEW_BUCKETS_PER_ADDRESS
  {
  }

  // ---------- the whole file ----------

  function BucketCount(f: File): nat {
    if f.version != 0 then Flipped(f.bucketField) else f.bucketField
  }

  predicate Usable(f: File) {
    f.version == 1 && BucketCount(f) == NEW_BUCKET_COUNT
  }

  function LoadNews(h: Hashing, t: Tables, es: seq<Entry>, usable: bool): Tables {
    if es == [] then t
    else LoadNew(h, LoadNews(h, t, es[..|es| - 1], usable), es[|es| - 1], |es| - 1, usable)
  }

  function LoadTrieds(h: Hashing, t: Tables, es: seq<Entry>): Tables {
    if es == [] then t else LoadTried(h, LoadTrieds(h, t, es[..|es| - 1]), es[|es| - 1])
  }

  function LoadBucket(h: Hashing, t: Tables, bucket: nat, indexes: seq<int>, usable: bool): Tables {
    if indexes == [] then t
    else LoadRef(h, LoadBucket(h, t, bucket, indexes[..|indexes| - 1], usable), bucket, indexes[|indexes| - 1], usable)
  }

  function LoadBuckets(h: Hashing, t: Tables, buckets: seq<seq<int>>, usable: bool): Tables {
    if buckets == [] then t
    else
      var k := |buckets| - 1;
      LoadBucket(h, LoadBuckets(h, t, buckets[..k], usable), k, buckets[k], usable)
  }

  /** The tables before addresses without any slot are pruned. */
  function Loaded(h: Hashing, f: File): Tables {
    var t1 := LoadNews(h, Fresh(f.key, f.nTried, f.nNew), f.newEntries, Usable(f));
    var t2 := LoadTrieds(h, t1.(nIdCount := |f.newEntries|), f.triedEntries);
    LoadBuckets(h, t2, f.buckets, Usable(f))
  }

  ghost function Saved(h: Hashing, s: Tables): File
    requires Inv(h, s, {}, 0)
  {
    ListsOfTables(h, s);
    File(1, 32, s.key, s.nNew, s.nTried, Flipped(NEW_BUCKET_COUNT),
         Entries(s.info, NewList(s.info, s.nIdCount)), Entries(s.info, TriedList(s.info, s.nIdCount)),
         BucketLists(s.news, Numbers(s.info, s.nIdCount), NEW_BUCKET_COUNT))
  }

  /** The order in which the addresses are saved, hence their new ids. */
  ghost function Order(s: Tables): seq<Id> {
    NewList(s.info, s.nIdCount) + TriedList(s.info, s.nIdCount)
  }

  /** Entry i of t is entry ids[i] of s; nothing but the time of the last try is lost. */
  ghost predicate Iso(s: Tables, t: Tables, ids: seq<Id>) {
    && Distinct(ids) && t.nIdCount == |ids|
    && Part(s, ids, |ids|, t) && NewsPart(s, ids, NEW_BUCKET_COUNT, 0, t.news)
    && (forall n :: n in s.info ==> n in ids)
    && (forall i :: i in t.info ==> t.info[i] == s.info[ids[i]].(lastTry := 0, randomPos := i))
  }

  lemma OrderIsComplete(h: Hashing, s: Tables)
    requires Inv(h, s, {}, 0)
    ensures var ids := NewList(s.info, s.nIdCount) + TriedList(s.info, s.nIdCount);
      && Distinct(ids) && |ids| == s.nNew + s.nTried && 0 <= s.nNew && 0 <= s.nTried
      && (forall i :: 0 <= i < |ids| ==> ids[i] in s.info && (s.info[ids[i]].inTried <==> i >= s.nNew))
      && (forall n :: n in s.info ==> n in ids)
  {
    ListsOfTables(h, s);
    hide NewList, TriedList, RandomOk, AddrOk, TriedOk, NewOk, RefsOk, CountsOk, ListOf;
    OrderOfLists(s.info, NewList(s.info, s.nIdCount), TriedList(s.info, s.nIdCount), s.nIdCount);
  }

  lemma OrderOfLists(info: map<Id, Info>, a: seq<Id>, b: seq<Id>, k: nat)
    requires ListOf(a, NewIds(info), k) && ListOf(b, TriedIds(info), k) && forall n :: n in info ==> n < k
    ensures Distinct(a + b)
    ensures forall i :: 0 <= i < |a + b| ==> (a + b)[i] in info && (info[(a + b)[i]].inTried <==> i >= |a|)
    ensures forall n :: n in info ==> n in a + b
  {
    var ids := a + b;
    forall i | 0 <= i < |ids| ensures ids[i] in info && (info[ids[i]].inTried <==> i >= |a|) {
      assert i < |a| ==> ids[i] == a[i] && a[i] in NewIds(info);
      assert i >= |a| ==> ids[i] == b[i - |a|] && b[i - |a|] in TriedIds(info);
    }
    forall n | n in info ensures n in ids {
      assert n in NewIds(info) || n in TriedIds(info);
    }
    hide NewIds, TriedIds;
    assert forall i, j :: 0 <= i < j < |a| ==> a[i] < a[j];
    assert forall i, j :: 0 <= i < j < |b| ==> b[i] < b[j];
    hide ListOf;
    forall i, j | 0 <= i < |ids| && 0 <= j < |ids| && ids[i] == ids[j] ensures i == j {
      assert info[ids[i]].inTried == info[ids[j]].inTried;
    }
  }

  /** The entries are those of ids[from..], in order. */
  ghost predicate EntriesAt(s: Tables, ids: seq<Id>, from: nat, es: seq<Entry>, inTried: bool) {
    && from + |es| <= |ids|
    && forall i :: from <= i < from + |es| ==>
         ids[i] in s.info && s.info[ids[i]].inTried == inTried && es[i - from] == Stored(s.info[ids[i]])
  }

  lemma {:induction false} NewsLoaded(h: Hashing, s: Tables, ids: seq<Id>, es: seq<Entry>, k: nat)
    requires Inv(h, s, {}, 0) && Distinct(ids) && k <= |es| && EntriesAt(s, ids, 0, es, false)
    ensures var t := LoadNews(h, Fresh(s.key, s.nTried, s.nNew), es[..k], true); Part(s, ids, k, t) && t.news == map[]
  {
    hide Inv, Part, Distinct, LoadNew;
    if k == 0 {
      FreshPart(s, ids);
    } else {
      NewsLoaded(h, s, ids, es, k - 1);
      var t := LoadNews(h, Fresh(s.key, s.nTried, s.nNew), es[..k - 1], true);
      assert es[..k][..k - 1] == es[..k - 1] && es[..k][k - 1] == es[k - 1];
      LoadNewPart(h, s, ids, k - 1, t);
      NewKeepsNews(h, t, es[k - 1], k - 1);
    }
  }

  lemma NewKeepsNews(h: Hashing, t: Tables, e: Entry, n: Id)
    ensures LoadNew(h, t, e, n, true).news == t.news
  {
  }

  lemma {:induction false} TriedsLoaded(h: Hashing, s: Tables, ids: seq<Id>, t: Tables, es: seq<Entry>, from: nat, k: nat)
    requires Inv(h, s, {}, 0) && Distinct(ids) && k <= |es| && EntriesAt(s, ids, from, es, true)
    requires Part(s, ids, from, t) && t.news == map[] && t.nIdCount == from
    ensures var t' := LoadTrieds(h, t, es[..k]); Part(s, ids, from + k, t') && t'.news == map[] && t'.nIdCount == from + k
  {
    hide Inv, Part, Distinct, LoadTried;
    if k > 0 {
      TriedsLoaded(h, s, ids, t, es, from, k - 1);
      assert es[..k][..k - 1] == es[..k - 1] && es[..k][k - 1] == es[k - 1];
      LoadTriedPart(h, s, ids, from + k - 1, LoadTrieds(h, t, es[..k - 1]));
    }
  }

  /** The file positions of the addresses with references. */
  ghost predicate NumbersOk(s: Tables, ids: seq<Id>, number: map<Id, nat>) {
    forall l :: l in s.news ==>
      s.news[l] in number && number[s.news[l]] < s.nNew && number[s.news[l]] < |ids| && ids[number[s.news[l]]] == s.news[l]
  }

  lemma {:induction false} BucketLoaded(h: Hashing, s: Tables, ids: seq<Id>, t: Tables, number: map<Id, nat>, bucket: nat, pos: nat)
    requires Inv(h, s, {}, 0) && Part(s, ids, |ids|, t) && NewsPart(s, ids, bucket, 0, t.news) && NumbersOk(s, ids, number)
    ensures var t' := LoadBucket(h, t, bucket, BucketList(s.news, number, bucket, pos), true);
      Part(s, ids, |ids|, t') && NewsPart(s, ids, bucket, pos, t'.news) && t'.nIdCount == t.nIdCount
    decreases pos
  {
    hide Inv, Part, NewsPart, LoadRef, NumbersOk, LoadBucket, BucketList;
    BucketListStep(h, s, t, ids, number, bucket, pos);
    if pos > 0 {
      BucketLoaded(h, s, ids, t, number, bucket, pos - 1);
      var t1 := LoadBucket(h, t, bucket, BucketList(s.news, number, bucket, pos - 1), true);
      var l := Slot(bucket, pos - 1);
      NewsNext(s, ids, bucket, pos - 1, t1.news, 0);
      if l in s.news {
        LoadRefPart(h, s, ids, bucket, pos - 1, t1, number[s.news[l]]);
      }
    }
  }

  /** One more position of a bucket, if it is taken, is one more reference to load. */
  lemma BucketListStep(h: Hashing, s: Tables, t: Tables, ids: seq<Id>, number: map<Id, nat>, bucket: nat, pos: nat)
    requires NumbersOk(s, ids, number)
    ensures pos == 0 ==> LoadBucket(h, t, bucket, BucketList(s.news, number, bucket, pos), true) == t
    ensures pos > 0 ==>
      var l := Slot(bucket, pos - 1);
      var t1 := LoadBucket(h, t, bucket, BucketList(s.news, number, bucket, pos - 1), true);
      && (l in s.news ==>
            var n := s.news[l];
            && n in number && number[n] < s.nNew && number[n] < |ids| && ids[number[n]] == n
            && LoadBucket(h, t, bucket, BucketList(s.news, number, bucket, pos), true) == LoadRef(h, t1, bucket, number[n], true))
      && (l !in s.news ==> LoadBucket(h, t, bucket, BucketList(s.news, number, bucket, pos), true) == t1)
  {
    hide LoadRef;
    if pos > 0 {
      var before := BucketList(s.news, number, bucket, pos - 1);
      var l := Slot(bucket, pos - 1);
      if l in s.news {
        assert (before + [number[s.news[l]]])[..|before|] == before;
      } else {
        assert before + [] == before;
      }
    }
  }

  lemma {:induction false} BucketsLoaded(h: Hashing, s: Tables, ids: seq<Id>, t: Tables, number: map<Id, nat>, count: nat)
    requires Inv(h, s, {}, 0) && Part(s, ids, |ids|, t) && t.news == map[] && NumbersOk(s, ids, number)
    ensures var t' := LoadBuckets(h, t, BucketLists(s.news, number, count), true);
      Part(s, ids, |ids|, t') && NewsPart(s, ids, count, 0, t'.news) && t'.nIdCount == t.nIdCount
  {
    hide Inv, Part, LoadBucket, BucketList, NumbersOk;
    if count > 0 {
      BucketsLoaded(h, s, ids, t, number, count - 1);
      var before := BucketLists(s.news, number, count - 1);
      var row := BucketList(s.news, number, count - 1, BUCKET_SIZE);
      assert (before + [row])[..count - 1] == before;
      var t1 := LoadBuckets(h, t, before, true);
      BucketLoaded(h, s, ids, t1, number, count - 1, BUCKET_SIZE);
      RowDone(h, s, ids, count - 1, LoadBucket(h, t1, count - 1, row, true).news);
    }
  }

  lemma RowDone(h: Hashing, s: Tables, ids: seq<Id>, bucket: nat, news: map<Slot, Id>)
    requires Inv(h, s, {}, 0) && NewsPart(s, ids, bucket, BUCKET_SIZE, news)
    ensures NewsPart(s, ids, bucket + 1, 0, news)
  {
    hide RandomOk, AddrOk, TriedOk, RefsOk, CountsOk;
    forall l | l in s.news ensures Before(l, bucket, BUCKET_SIZE) <==> Before(l, bucket + 1, 0) {
      assert l.pos < BUCKET_SIZE;
    }
  }

  lemma NumbersAreOk(h: Hashing, s: Tables)
    requires Inv(h, s, {}, 0)
    ensures NumbersOk(s, Order(s), Numbers(s.info, s.nIdCount))
  {
    hide RandomOk, AddrOk, TriedOk, NewList, TriedList, Numbers;
    ListsOfTables(h, s);
    var a := NewList(s.info, s.nIdCount);
    forall l | l in s.news
      ensures exists i :: 0 <= i < |a| && a[i] == s.news[l] && s.news[l] in Numbers(s.info, s.nIdCount) && Numbers(s.info, s.nIdCount)[s.news[l]] == i
    {
      assert s.news[l] in NewIds(s.info);
      var i :| 0 <= i < |a| && a[i] == s.news[l];
      NumbersRight(s.info, s.nIdCount, i);
    }
  }

  lemma SavedParts(h: Hashing, s: Tables)
    requires Inv(h, s, {}, 0)
    ensures var f, ids := Saved(h, s), Order(s);
      && f.keySize == 32 && f.key == s.key && f.nNew == s.nNew == |f.newEntries| && f.nTried == s.nTried == |f.triedEntries|
      && |ids| == |f.newEntries| + |f.triedEntries| && Usable(f) && |f.buckets| == NEW_BUCKET_COUNT
      && f.buckets == BucketLists(s.news, Numbers(s.info, s.nIdCount), NEW_BUCKET_COUNT)
      && EntriesAt(s, ids, 0, f.newEntries, false) && EntriesAt(s, ids, |f.newEntries|, f.triedEntries, true)
  {
    hide NewList, TriedList, Numbers, BucketLists, Distinct, ListOf, EntriesAt, Entries;
    hide RandomOk, AddrOk, IdsOk, TriedOk, NewOk, RefsOk, CountsOk;
    ListsOfTables(h, s);
    OrderIsComplete(h, s);
    EntriesAreAt(s, NewList(s.info, s.nIdCount), TriedList(s.info, s.nIdCount));
  }

  lemma EntriesAreAt(s: Tables, a: seq<Id>, b: seq<Id>)
    requires forall i :: 0 <= i < |a + b| ==> (a + b)[i] in s.info && (s.info[(a + b)[i]].inTried <==> i >= |a|)
    requires forall i :: 0 <= i < |a| ==> a[i] in s.info
    requires forall i :: 0 <= i < |b| ==> b[i] in s.info
    ensures EntriesAt(s, a + b, 0, Entries(s.info, a), false) && EntriesAt(s, a + b, |a|, Entries(s.info, b), true)
  {
  }

  lemma SavedLoads(h: Hashing, s: Tables)
    requires Inv(h, s, {}, 0)
    ensures var t := Loaded(h, Saved(h, s)); var ids := Order(s);
      && Part(s, ids, |ids|, t) && NewsPart(s, ids, NEW_BUCKET_COUNT, 0, t.news) && t.nIdCount == |ids|
  {
    hide Inv, Part, NewsPart, NumbersOk, Numbers, BucketLists, LoadNews, LoadTrieds, LoadBuckets, Distinct, Saved, Order,
      EntriesAt, Usable;
    var f, ids := Saved(h, s), Order(s);
    var nn := |f.newEntries|;
    SavedParts(h, s);
    IsDistinct(h, s);
    NumbersAreOk(h, s);
    assert f.newEntries[..nn] == f.newEntries && f.triedEntries[..|f.triedEntries|] == f.triedEntries;
    NewsLoaded(h, s, ids, f.newEntries, nn);
    var t1 := LoadNews(h, Fresh(f.key, f.nTried, f.nNew), f.newEntries, true);
    PartIgnoresCounter(s, ids, nn, t1, nn);
    TriedsLoaded(h, s, ids, t1.(nIdCount := nn), f.triedEntries, nn, |f.triedEntries|);
    BucketsLoaded(h, s, ids, LoadTrieds(h, t1.(nIdCount := nn), f.triedEntries), Numbers(s.info, s.nIdCount), NEW_BUCKET_COUNT);
  }

  lemma PartIgnoresCounter(s: Tables, ids: seq<Id>, k: nat, t: Tables, n: Id)
    requires Part(s, ids, k, t)
    ensures Part(s, ids, k, t.(nIdCount := n))
  {
  }

  // ---------- renumbering keeps everything ----------

  lemma SameSlots(h: Hashing, s: Tables, t: Tables, ids: seq<Id>, i: nat)
    requires Inv(h, s, {}, 0) && NewsPart(s, ids, NEW_BUCKET_COUNT, 0, t.news) && Distinct(ids) && i < |ids|
    ensures Slots(t.news, i) == Slots(s.news, ids[i])
  {
    hide RandomOk, AddrOk, TriedOk, RefsOk, CountsOk, NewSlot;
    forall l | l in s.news ensures Before(l, NEW_BUCKET_COUNT, 0) {
    }
  }

  lemma LoadedIsIso(h: Hashing, s: Tables, t: Tables, ids: seq<Id>)
    requires Inv(h, s, {}, 0) && Distinct(ids) && t.nIdCount == |ids| && (forall n :: n in s.info ==> n in ids)
    requires Part(s, ids, |ids|, t) && NewsPart(s, ids, NEW_BUCKET_COUNT, 0, t.news)
    ensures Iso(s, t, ids)
  {
    hide RandomOk, AddrOk, TriedOk, CountsOk, NewOk, NewsPart, Distinct;
    forall i | i in t.info ensures t.info[i] == s.info[ids[i]].(lastTry := 0, randomPos := i) {
      SameSlots(h, s, t, ids, i);
    }
  }

  lemma {:induction false} ImageSize(a: set<Id>, b: set<Id>, ids: seq<Id>)
    requires Distinct(ids) && forall i :: i in a ==> i < |ids| && ids[i] in b
    requires forall n :: n in b ==> exists i :: i in a && i < |ids| && ids[i] == n
    ensures |a| == |b|
    decreases |a|
  {
    if i :| i in a {
      var a', b' := a - {i}, b - {ids[i]};
      forall n | n in b' ensures exists j :: j in a' && j < |ids| && ids[j] == n {
        var j :| j in a && j < |ids| && ids[j] == n;
        assert j in a';
      }
      ImageSize(a', b', ids);
    } else {
      assert a == {};
      assert b == {};
    }
  }

  lemma IsoCounts(h: Hashing, s: Tables, t: Tables, ids: seq<Id>)
    requires Inv(h, s, {}, 0) && Iso(s, t, ids)
    ensures CountsOk(t.info, t.nTried, t.nNew, 0)
  {
    hide RandomOk, AddrOk, TriedOk, NewOk, RefsOk, NewsPart, AddrPart, TriedPart;
    forall n | n in s.info ensures exists i: nat :: i < |ids| && ids[i] == n && i in t.info {
      assert n in ids;
    }
    forall n | n in TriedIds(s.info) ensures exists i: nat :: i in TriedIds(t.info) && i < |ids| && ids[i] == n {
      var i: nat :| i < |ids| && ids[i] == n && i in t.info;
      assert i in TriedIds(t.info);
    }
    forall n | n in NewIds(s.info) ensures exists i: nat :: i in NewIds(t.info) && i < |ids| && ids[i] == n {
      var i: nat :| i < |ids| && ids[i] == n && i in t.info;
      assert i in NewIds(t.info);
    }
    ImageSize(TriedIds(t.info), TriedIds(s.info), ids);
    ImageSize(NewIds(t.info), NewIds(s.info), ids);
  }

  lemma IsoEntry(s: Tables, t: Tables, ids: seq<Id>, i: nat)
    requires Iso(s, t, ids) && i < |ids|
    ensures i in t.info && ids[i] in s.info && t.info[i] == s.info[ids[i]].(lastTry := 0, randomPos := i)
  {
    hide NewsPart, AddrPart, TriedPart, Slots, Distinct;
  }

  lemma IsoTriedSlot(h: Hashing, s: Tables, t: Tables, ids: seq<Id>, l: Slot)
    requires TriedOk(h, s.key, s.info, s.tried) && Iso(s, t, ids) && l in t.tried
    ensures t.tried[l] in t.info && t.info[t.tried[l]].inTried && l == TriedSlot(h, t.key, t.info[t.tried[l]].service)
  {
    hide AddrPart, InfoPart, TriedSlot, NewsPart, Slots;
    assert ids[..|ids|] == ids;
    IsoEntry(s, t, ids, t.tried[l]);
  }

  lemma IsoTried(h: Hashing, s: Tables, t: Tables, ids: seq<Id>)
    requires TriedOk(h, s.key, s.info, s.tried) && Iso(s, t, ids)
    ensures TriedOk(h, t.key, t.info, t.tried)
  {
    hide AddrPart, InfoPart, TriedSlot, NewsPart, Slots;
    assert ids[..|ids|] == ids;
    forall l | l in t.tried
      ensures t.tried[l] in t.info && t.info[t.tried[l]].inTried && l == TriedSlot(h, t.key, t.info[t.tried[l]].service)
    {
      IsoTriedSlot(h, s, t, ids, l);
    }
    forall i | i in t.info && t.info[i].inTried
      ensures TriedSlot(h, t.key, t.info[i].service) in t.tried && t.tried[TriedSlot(h, t.key, t.info[i].service)] == i
    {
      IsoBound(s, t, ids, i);
      IsoEntry(s, t, ids, i);
    }
  }

  lemma IsoBound(s: Tables, t: Tables, ids: seq<Id>, i: nat)
    requires Iso(s, t, ids) && i in t.info
    ensures i < |ids|
  {
    hide NewsPart, AddrPart, TriedPart, Slots, Distinct;
  }

  lemma IsoNew(h: Hashing, s: Tables, t: Tables, ids: seq<Id>)
    requires NewOk(h, s.key, s.info, s.news) && Iso(s, t, ids)
    ensures NewOk(h, t.key, t.info, t.news)
  {
    hide AddrPart, InfoPart, TriedPart, NewSlot, Slots;
    forall l | l in t.news
      ensures t.news[l] in t.info && !t.info[t.news[l]].inTried && l.bucket < NEW_BUCKET_COUNT
      ensures l == NewSlot(h, t.key, t.info[t.news[l]].service, l.bucket)
    {
      IsoEntry(s, t, ids, t.news[l]);
    }
  }

  lemma IsoRefs(h: Hashing, s: Tables, t: Tables, ids: seq<Id>)
    requires Inv(h, s, {}, 0) && Iso(s, t, ids)
    ensures RefsOk(t.info, t.news, {})
  {
    hide RandomOk, AddrOk, CountsOk, AddrPart, TriedPart, TriedOk, NewOk, NewsPart, Distinct;
    forall i | i in t.info
      ensures t.info[i].refCount == |Slots(t.news, i)| && t.info[i].refCount <= NEW_BUCKETS_PER_ADDRESS
      ensures !t.info[i].inTried ==> t.info[i].refCount > 0
    {
      SameSlots(h, s, t, ids, i);
    }
  }

  lemma IsoIndexes(s: Tables, t: Tables, ids: seq<Id>)
    requires AddrOk(s.info, s.addr) && Iso(s, t, ids)
    ensures RandomOk(t.info, t.random) && AddrOk(t.info, t.addr) && IdsOk(t.info, t.nIdCount)
  {
    hide TriedPart, NewsPart, InfoPart, Slots, RandomOk, AddrOk, AddrPart, Distinct;
    IsoRandom(s, t, ids);
    IsoKeys(s, t, ids);
    IsoAddr(s, t, ids);
  }

  lemma IsoAddr(s: Tables, t: Tables, ids: seq<Id>)
    requires AddrOk(s.info, s.addr) && Iso(s, t, ids)
    ensures AddrOk(t.info, t.addr)
  {
    hide Iso, Part;
    forall i | i in t.info ensures t.info[i].service.ip in t.addr && t.addr[t.info[i].service.ip] == i {
      IsoAddrOf(s, t, ids, i);
    }
    forall a | a in t.addr ensures t.addr[a] in t.info && t.info[t.addr[a]].service.ip == a {
      IsoAddrAt(s, t, ids, a);
    }
  }

  lemma IsoAddrOf(s: Tables, t: Tables, ids: seq<Id>, i: nat)
    requires AddrOk(s.info, s.addr) && Iso(s, t, ids) && i in t.info
    ensures t.info[i].service.ip in t.addr && t.addr[t.info[i].service.ip] == i
  {
    hide TriedPart, NewsPart, InfoPart, Slots, RandomPart;
    IsoBound(s, t, ids, i);
    IsoEntry(s, t, ids, i);
    assert ids[..|ids|] == ids;
  }

  lemma IsoAddrAt(s: Tables, t: Tables, ids: seq<Id>, a: NetAddr)
    requires AddrOk(s.info, s.addr) && Iso(s, t, ids) && a in t.addr
    ensures t.addr[a] in t.info && t.info[t.addr[a]].service.ip == a
  {
    hide TriedPart, NewsPart, InfoPart, Slots, RandomPart, Distinct;
    IsoEntry(s, t, ids, t.addr[a]);
  }

  lemma IsoRandom(s: Tables, t: Tables, ids: seq<Id>)
    requires Iso(s, t, ids)
    ensures RandomOk(t.info, t.random)
  {
    hide TriedPart, NewsPart, InfoPart, AddrPart, Slots, Distinct;
    IsoKeys(s, t, ids);
    KeysBelow(t.info, |ids|);
  }

  lemma IsoKeys(s: Tables, t: Tables, ids: seq<Id>)
    requires Iso(s, t, ids)
    ensures forall i: nat :: i in t.info <==> i < |ids|
  {
    hide NewsPart, AddrPart, TriedPart, Slots, Distinct;
  }

  lemma {:induction false} KeysBelow(info: map<Id, Info>, k: nat)
    requires forall i: nat :: i in info <==> i < k
    ensures |info| == k
  {
    if k > 0 {
      var less := info - {k - 1};
      assert less.Keys == info.Keys - {k - 1};
      assert |less| == |less.Keys| && |info| == |info.Keys|;
      KeysBelow(less, k - 1);
    } else {
      assert forall i :: i !in info;
      assert info == map[];
    }
  }

  /** What comes back is the same but for renumbering, and consistent again. */
  lemma RoundTrip(h: Hashing, s: Tables)
    requires Inv(h, s, {}, 0)
    ensures var t := Loaded(h, Saved(h, s));
      Iso(s, t, Order(s)) && Inv(h, t, {}, 0) && (TimesOk(s.info) ==> TimesOk(t.info))
  {
    hide RandomOk, AddrOk, IdsOk, TriedOk, NewOk, RefsOk, CountsOk, Part, NewsPart, Distinct, Loaded, Saved, Order;
    var t, ids := Loaded(h, Saved(h, s)), Order(s);
    SavedLoads(h, s);
    IsDistinct(h, s);
    LoadedIsIso(h, s, t, ids);
    IsoCounts(h, s, t, ids);
    IsoTried(h, s, t, ids);
    IsoNew(h, s, t, ids);
    IsoRefs(h, s, t, ids);
    IsoIndexes(s, t, ids);
    IsoTimes(s, t, ids);
    SameKey(s, t, ids);
  }

  lemma IsDistinct(h: Hashing, s: Tables)
    requires Inv(h, s, {}, 0)
    ensures Distinct(Order(s)) && forall n :: n in s.info ==> n in Order(s)
  {
    OrderIsComplete(h, s);
  }

  lemma SameKey(s: Tables, t: Tables, ids: seq<Id>)
    requires Iso(s, t, ids)
    ensures t.key == s.key
  {
  }

  lemma IsoTimes(s: Tables, t: Tables, ids: seq<Id>)
    requires Iso(s, t, ids)
    ensures TimesOk(s.info) ==> TimesOk(t.info)
  {
    hide NewsPart, AddrPart, TriedPart, Slots;
    forall i | i in t.info ensures ids[i] in s.info {
    }
  }

  // ---------- the methods ----------

  /** Writes the tables; both counters are found right on the way. */
  method Serialize(h: Hashing, s: Tables) returns (f: File)
    requires Inv(h, s, {}, 0)
    ensures f == Saved(h, s)
  {
    hide Inv, NewList, TriedList, Numbers, BucketList, ListOf;
    ListsOfTables(h, s);
    var ids, number := NumberEntries(s);
    assert |ids| == s.nNew;
    var trieds := TriedEntries(s);
    assert |trieds| == s.nTried;
    var buckets := [];
    for bucket: nat := 0 to NEW_BUCKET_COUNT
      invariant buckets == BucketLists(s.news, Numbers(s.info, s.nIdCount), bucket)
    {
      var row := WriteBucket(s.news, number, bucket);
      buckets := buckets + [row];
    }
    f := File(1, 32, s.key, s.nNew, s.nTried, Flipped(NEW_BUCKET_COUNT), Entries(s.info, ids), Entries(s.info, trieds), buckets);
  }

  method NumberEntries(s: Tables) returns (ids: seq<Id>, number: map<Id, nat>)
    ensures ids == NewList(s.info, s.nIdCount) && number == Numbers(s.info, s.nIdCount)
  {
    ids, number := [], map[];
    for n: nat := 0 to s.nIdCount
      invariant ids == NewList(s.info, n) && number == Numbers(s.info, n)
    {
      if n in s.info {
        number := number[n := |ids|];
        if s.info[n].refCount != 0 {
          ids := ids + [n];
        }
      }
    }
  }

  method TriedEntries(s: Tables) returns (ids: seq<Id>)
    ensures ids == TriedList(s.info, s.nIdCount)
  {
    ids := [];
    for n: nat := 0 to s.nIdCount
      invariant ids == TriedList(s.info, n)
    {
      if n in s.info && s.info[n].inTried {
        ids := ids + [n];
      }
    }
  }

  method WriteBucket(news: map<Slot, Id>, number: map<Id, nat>, bucket: nat) returns (row: seq<int>)
    ensures row == BucketList(news, number, bucket, BUCKET_SIZE)
  {
    row := [];
    for pos: nat := 0 to BUCKET_SIZE
      invariant row == BucketList(news, number, bucket, pos)
    {
      var l := Slot(bucket, pos);
      if l in news {
        row := row + [if news[l] in number then number[news[l]] else 0];
      }
    }
  }

  /** Ids are used once, and every entry has its own place in the order. */
  ghost predicate Numbered(t: Tables, n: Id) {
    RandomOk(t.info, t.random) && forall i :: i in t.info ==> i < n
  }

  lemma NewNumbered(h: Hashing, t: Tables, e: Entry, k: Id, usable: bool)
    requires Numbered(t, k)
    ensures Numbered(LoadNew(h, t, e, k, usable), k + 1)
  {
    AppendNumbered(t.info, t.random, k, Restored(e, false, |t.random|));
    AppendNumbered(t.info, t.random, k, Restored(e, false, |t.random|).(refCount := 1));
    hide RandomOk, NewSlot, NewBucket;
  }

  lemma {:induction false} NewsNumbered(h: Hashing, t: Tables, es: seq<Entry>, usable: bool)
    requires t.info == map[] && t.random == []
    ensures Numbered(LoadNews(h, t, es, usable), |es|)
  {
    hide LoadNew;
    if es != [] {
      var k := |es| - 1;
      hide Numbered;
      NewsNumbered(h, t, es[..k], usable);
      NewNumbered(h, LoadNews(h, t, es[..k], usable), es[k], k, usable);
    }
  }

  lemma {:induction false} TriedsNumbered(h: Hashing, t: Tables, es: seq<Entry>)
    requires Numbered(t, t.nIdCount)
    ensures var t' := LoadTrieds(h, t, es); Numbered(t', t'.nIdCount)
  {
    if es != [] {
      var k := |es| - 1;
      TriedsNumbered(h, t, es[..k]);
      var t1 := LoadTrieds(h, t, es[..k]);
      AppendNumbered(t1.info, t1.random, t1.nIdCount, Restored(es[k], true, |t1.random|));
      hide RandomOk;
    }
  }

  lemma RefNumbered(h: Hashing, t: Tables, bucket: nat, index: int, usable: bool, n: Id)
    requires Numbered(t, n)
    ensures Numbered(LoadRef(h, t, bucket, index, usable), n)
  {
    var t' := LoadRef(h, t, bucket, index, usable);
    assert t'.info.Keys == t.info.Keys;
    assert |t'.info| == |t'.info.Keys| && |t.info| == |t.info.Keys|;
  }

  /** Drops addresses that are in no slot. */
  method Prune(t: Tables) returns (t': Tables)
    requires Numbered(t, t.nIdCount)
    ensures Numbered(t', t.nIdCount)
    ensures forall n :: n in t'.info ==> t'.info[n].inTried || t'.info[n].refCount != 0
    ensures (forall n :: n in t.info ==> t.info[n].inTried || t.info[n].refCount != 0) ==> t' == t
    ensures forall n :: n in t'.info ==> n in t.info && SameEntry(t.info[n], t'.info[n])
  {
    hide RandomOk;
    t' := t;
    for n: nat := 0 to t.nIdCount
      invariant Numbered(t', t.nIdCount) && t'.nIdCount == t.nIdCount
      invariant forall i :: i in t'.info && i < n ==> t'.info[i].inTried || t'.info[i].refCount != 0
      invariant (forall i :: i in t.info ==> t.info[i].inTried || t.info[i].refCount != 0) ==> t' == t
      invariant forall i :: i in t'.info ==> i in t.info && SameEntry(t.info[i], t'.info[i])
    {
      if n in t'.info && !t'.info[n].inTried && t'.info[n].refCount == 0 {
        t' := DeleteEntry(t', n);
      }
    }
  }

  /** Swaps an address with the last in the order. */
  method MoveLast(info: map<Id, Info>, random: seq<Id>, n: Id) returns (info': map<Id, Info>, random': seq<Id>)
    requires RandomOk(info, random) && n in info
    ensures RandomOk(info', random') && |random'| == |random| && OnlyPositions(info, info')
    ensures n in info' && info'[n].randomPos == |random| - 1
  {
    var pos: nat, last: nat := info[n].randomPos, |random| - 1;
    info', random' := info, random;
    if pos != last {
      SwapKeepsRandom(info, random, pos, last);
      info' := Moved(Moved(info, random[pos], last), random[last], pos);
      random' := Swapped(random, pos, last);
    }
  }

  method DeleteEntry(t: Tables, n: Id) returns (t': Tables)
    requires RandomOk(t.info, t.random) && n in t.info
    ensures RandomOk(t'.info, t'.random) && t'.nIdCount == t.nIdCount
    ensures forall i :: i in t'.info <==> i in t.info && i != n
    ensures forall i :: i in t'.info ==> SameEntry(t.info[i], t'.info[i])
  {
    var pos, last := t.info[n].randomPos, |t.random| - 1;
    var info, random := MoveLast(t.info, t.random, n);
    DeleteKeepsRandom(info, random, n);
    hide RandomOk;
    t' := t.(info := info - {n}, addr := t.addr - {t.info[n].service.ip}, random := random[..last], nNew := t.nNew - 1);
  }

  /** The stream holds what its counts announce. */
  predicate WellSized(f: File) {
    f.nNew == |f.newEntries| && f.nTried == |f.triedEntries| && |f.buckets| == BucketCount(f)
  }

  ghost predicate AllReferenced(t: Tables) {
    forall n :: n in t.info ==> t.info[n].inTried || t.info[n].refCount != 0
  }

  /** Reads any file into a fresh manager: a wrong key size is refused; otherwise every entry ends up in the
      tried table or in a slot, and if none had to be pruned the tables are exactly those of the file. */
  method Unserialize(h: Hashing, f: File) returns (r: Option<Tables>)
    ensures r.Some? <==> f.keySize == 32 && WellSized(f)
    ensures r.Some? ==> RandomOk(r.value.info, r.value.random) && AllReferenced(r.value)
    ensures r.Some? && AllReferenced(Loaded(h, f)) ==> r.value == Loaded(h, f)
  {
    hide LoadNew, LoadTried, LoadRef, RandomOk;
    if f.keySize != 32 || !WellSized(f) {
      return None;
    }
    var usable := Usable(f);
    var t := ReadNews(h, f.key, f.nTried, f.nNew, f.newEntries, usable);
    t := t.(nIdCount := |f.newEntries|);
    t := ReadTrieds(h, t, f.triedEntries);
    t := ReadBuckets(h, t, f.buckets, usable);
    t := Prune(t);
    r := Some(t);
  }

  method ReadNews(h: Hashing, key: nat, nTried: int, nNew: int, es: seq<Entry>, usable: bool) returns (t: Tables)
    ensures t == LoadNews(h, Fresh(key, nTried, nNew), es, usable) && Numbered(t, |es|)
  {
    hide LoadNew, Numbered;
    t := Fresh(key, nTried, nNew);
    for k: nat := 0 to |es|
      invariant t == LoadNews(h, Fresh(key, nTried, nNew), es[..k], usable)
    {
      assert es[..k + 1][..k] == es[..k];
      t := LoadNew(h, t, es[k], k, usable);
    }
    assert es[..|es|] == es;
    NewsNumbered(h, Fresh(key, nTried, nNew), es, usable);
  }

  method ReadTrieds(h: Hashing, t: Tables, es: seq<Entry>) returns (t': Tables)
    requires Numbered(t, t.nIdCount)
    ensures t' == LoadTrieds(h, t, es) && Numbered(t', t'.nIdCount)
  {
    hide LoadTried, Numbered;
    t' := t;
    for k: nat := 0 to |es|
      invariant t' == LoadTrieds(h, t, es[..k])
    {
      assert es[..k + 1][..k] == es[..k];
      t' := LoadTried(h, t', es[k]);
    }
    assert es[..|es|] == es;
    TriedsNumbered(h, t, es);
  }

  lemma RefKeepsCounter(h: Hashing, t: Tables, bucket: nat, index: int, usable: bool)
    ensures LoadRef(h, t, bucket, index, usable).nIdCount == t.nIdCount
  {
  }

  method ReadBuckets(h: Hashing, t: Tables, buckets: seq<seq<int>>, usable: bool) returns (t': Tables)
    requires Numbered(t, t.nIdCount)
    ensures t' == LoadBuckets(h, t, buckets, usable) && Numbered(t', t'.nIdCount)
  {
    hide LoadRef, Numbered, LoadBucket;
    t' := t;
    for b: nat := 0 to |buckets|
      invariant t' == LoadBuckets(h, t, buckets[..b], usable) && Numbered(t', t'.nIdCount)
    {
      assert buckets[..b + 1][..b] == buckets[..b];
      t' := ReadBucket(h, t', b, buckets[b], usable);
    }
    assert buckets[..|buckets|] == buckets;
  }

  method ReadBucket(h: Hashing, t: Tables, bucket: nat, row: seq<int>, usable: bool) returns (t': Tables)
    requires Numbered(t, t.nIdCount)
    ensures t' == LoadBucket(h, t, bucket, row, usable) && Numbered(t', t'.nIdCount)
  {
    hide LoadRef, Numbered;
    t' := t;
    for k: nat := 0 to |row|
      invariant t' == LoadBucket(h, t, bucket, row[..k], usable) && Numbered(t', t'.nIdCount)
    {
      assert row[..k + 1][..k] == row[..k];
      RefNumbered(h, t', bucket, row[k], usable, t'.nIdCount);
      RefKeepsCounter(h, t', bucket, row[k], usable);
      t' := LoadRef(h, t', bucket, row[k], usable);
    }
    assert row[..|row|] == row;
  }

  lemma SavedIsReadable(h: Hashing, s: Tables)
    requires Inv(h, s, {}, 0)
    ensures var f := Saved(h, s); f.keySize == 32 && WellSized(f) && AllReferenced(Loaded(h, f))
  {
    SavedParts(h, s);
    RoundTrip(h, s);
    hide Saved, Loaded, Iso, RandomOk, AddrOk, TriedOk, NewOk, CountsOk, BucketLists, EntriesAt, Order;
  }

  /** Saving consistent tables and loading them into a fresh manager loses nothing but the times of the last
      tries: the result is the same up to renumbering, and consistent again. */
  method SaveAndLoad(h: Hashing, s: Tables) returns (t: Tables)
    requires Inv(h, s, {}, 0)
    ensures Iso(s, t, Order(s)) && Inv(h, t, {}, 0) && (TimesOk(s.info) ==> TimesOk(t.info))
  {
    hide Inv, Iso, TimesOk, Saved, Loaded, WellSized, AllReferenced, RandomOk;
    var f := Serialize(h, s);
    SavedIsReadable(h, s);
    RoundTrip(h, s);
    var r := Unserialize(h, f);
    t := r.value;
  }
}
