/** The tables of the address manager as values, what ties them together, and what each elementary update
    keeps. */
module AddrTables {
  const TRIED_BUCKET_COUNT: nat := 256
  const NEW_BUCKET_COUNT: nat := 1024
  const BUCKET_SIZE: nat := 64
  const NEW_BUCKETS_PER_ADDRESS: nat := 8

  type NetAddr = nat
  type Id = nat
  datatype Service = Service(ip: NetAddr, port: nat)

  datatype Info = Info(
    service: Service, services: set<nat>, time: nat, source: NetAddr,
    lastTry: int, lastSuccess: int, attempts: int,
    refCount: int, inTried: bool, randomPos: int)

  /** The hashes are arbitrary functions of what they are fed with. */
  datatype Hashing = Hashing(
    routable: NetAddr -> bool,
    tried: (nat, Service) -> nat,
    fromSource: (nat, NetAddr, NetAddr) -> nat,
    position: (nat, bool, nat, Service) -> nat)

  datatype Slot = Slot(bucket: nat, pos: nat)

  function TriedBucket(h: Hashing, key: nat, a: Service): (r: nat)
    ensures r < TRIED_BUCKET_COUNT
  {
    h.tried(key, a) % TRIED_BUCKET_COUNT
  }

  function NewBucket(h: Hashing, key: nat, a: Service, source: NetAddr): (r: nat)
    ensures r < NEW_BUCKET_COUNT
  {
    h.fromSource(key, a.ip, source) % NEW_BUCKET_COUNT
  }

  function BucketPosition(h: Hashing, key: nat, isNew: bool, bucket: nat, a: Service): (r: nat)
    ensures r < BUCKET_SIZE
  {
    h.position(key, isNew, bucket, a) % BUCKET_SIZE
  }

  function TriedSlot(h: Hashing, key: nat, a: Service): Slot {
    var b := TriedBucket(h, key, a);
    Slot(b, BucketPosition(h, key, false, b, a))
  }

  function NewSlot(h: Hashing, key: nat, a: Service, bucket: nat): Slot {
    Slot(bucket, BucketPosition(h, key, true, bucket, a))
  }

  /** An empty slot, -1 in the arrays, is absent from the map. */
  datatype Tables = Tables(
    key: nat,
    info: map<Id, Info>, addr: map<NetAddr, Id>, random: seq<Id>,
    tried: map<Slot, Id>, news: map<Slot, Id>,
    nTried: int, nNew: int, nIdCount: Id)

  // ---------- what ties the tables together ----------

  ghost predicate RandomOk(info: map<Id, Info>, random: seq<Id>) {
    && |random| == |info|
    && (forall n :: n in info ==> 0 <= info[n].randomPos < |random| && random[info[n].randomPos] == n)
    && (forall k :: 0 <= k < |random| ==> random[k] in info && info[random[k]].randomPos == k)
  }

  ghost predicate AddrOk(info: map<Id, Info>, addr: map<NetAddr, Id>) {
    && (forall n :: n in info ==> info[n].service.ip in addr && addr[info[n].service.ip] == n)
    && (forall a :: a in addr ==> addr[a] in info && info[addr[a]].service.ip == a)
  }

  ghost predicate IdsOk(info: map<Id, Info>, nIdCount: Id) {
    0 <= nIdCount && forall n :: n in info ==> 0 <= n < nIdCount
  }

  ghost predicate TriedOk(h: Hashing, key: nat, info: map<Id, Info>, tried: map<Slot, Id>) {
    && (forall l :: l in tried ==>
          tried[l] in info && info[tried[l]].inTried && l == TriedSlot(h, key, info[tried[l]].service))
    && (forall n :: n in info && info[n].inTried ==>
          TriedSlot(h, key, info[n].service) in tried && tried[TriedSlot(h, key, info[n].service)] == n)
  }

  ghost predicate NewOk(h: Hashing, key: nat, info: map<Id, Info>, news: map<Slot, Id>) {
    forall l :: l in news ==>
      && news[l] in info && !info[news[l]].inTried
      && l.bucket < NEW_BUCKET_COUNT && l == NewSlot(h, key, info[news[l]].service, l.bucket)
  }

  function Slots(news: map<Slot, Id>, n: Id): set<Slot> {
    set l | l in news && news[l] == n
  }

  /** Reference counts are exact; outside `limbo` an address is in the tried table or in 1 to 8 new slots. */
  ghost predicate RefsOk(info: map<Id, Info>, news: map<Slot, Id>, limbo: set<Id>) {
    && (forall n :: n in info ==> info[n].refCount == |Slots(news, n)| && info[n].refCount <= NEW_BUCKETS_PER_ADDRESS)
    && (forall n :: n in info && !info[n].inTried && n !in limbo ==> info[n].refCount > 0)
    && (forall n :: n in limbo ==> n in info && !info[n].inTried)
  }

  function TriedIds(info: map<Id, Info>): set<Id> {
    set n | n in info && info[n].inTried
  }

  function NewIds(info: map<Id, Info>): set<Id> {
    set n | n in info && !info[n].inTried
  }

  ghost predicate CountsOk(info: map<Id, Info>, nTried: int, nNew: int, uncounted: int) {
    nTried == |TriedIds(info)| && nNew + uncounted == |NewIds(info)|
  }

  /** The state in the middle of an operation: `limbo` holds addresses that may be in no slot yet, and
      `uncounted` of the addresses outside the tried table are missing from the counter. */
  ghost predicate Inv(h: Hashing, s: Tables, limbo: set<Id>, uncounted: int) {
    && s.key != 0
    && RandomOk(s.info, s.random) && AddrOk(s.info, s.addr) && IdsOk(s.info, s.nIdCount)
    && TriedOk(h, s.key, s.info, s.tried) && NewOk(h, s.key, s.info, s.news)
    && RefsOk(s.info, s.news, limbo) && CountsOk(s.info, s.nTried, s.nNew, uncounted)
  }

  /** The time stamps that the consistency check looks at. */
  ghost predicate TimesOk(info: map<Id, Info>) {
    forall n :: n in info ==>
      info[n].lastTry >= 0 && info[n].lastSuccess >= 0 && (info[n].inTried ==> info[n].lastSuccess > 0)
  }

  // ---------- consequences ----------

  /** The sizes of the tables: 256 buckets of 64 slots for tried addresses, 1024 of 64 for new ones; an address in the
      tried table has one slot there and none in the other, any other address has one to eight new slots. */
  lemma TableBounds(h: Hashing, s: Tables)
    requires Inv(h, s, {}, 0)
    ensures forall l :: l in s.tried ==> l.bucket < 256 && l.pos < 64
    ensures forall l :: l in s.news ==> l.bucket < 1024 && l.pos < 64
    ensures forall n :: n in s.info && s.info[n].inTried ==> |Slots(s.news, n)| == 0 && |Slots(s.tried, n)| == 1
    ensures forall n :: n in s.info && !s.info[n].inTried ==> 1 <= |Slots(s.news, n)| <= 8 && |Slots(s.tried, n)| == 0
  {
    hide RandomOk, AddrOk, IdsOk, CountsOk;
    forall n | n in s.info && s.info[n].inTried ensures |Slots(s.news, n)| == 0 && |Slots(s.tried, n)| == 1 {
      assert Slots(s.news, n) == {};
      assert Slots(s.tried, n) == {TriedSlot(h, s.key, s.info[n].service)};
    }
    forall n | n in s.info && !s.info[n].inTried ensures 1 <= |Slots(s.news, n)| <= 8 && |Slots(s.tried, n)| == 0 {
      assert Slots(s.tried, n) == {};
    }
  }

  lemma {:induction false} KeysSize(info: map<Id, Info>)
    ensures |info| == |TriedIds(info)| + |NewIds(info)|
  {
    assert info.Keys == TriedIds(info) + NewIds(info);
    assert TriedIds(info) !! NewIds(info);
    assert |info| == |info.Keys|;
  }

  lemma TriedHasNoSlots(h: Hashing, s: Tables, limbo: set<Id>, uncounted: int, n: Id)
    requires Inv(h, s, limbo, uncounted) && n in s.info && s.info[n].inTried
    ensures Slots(s.news, n) == {} && s.info[n].refCount == 0
  {
  }

  lemma SlotsRemoved(news: map<Slot, Id>, l: Slot, n: Id)
    requires l in news
    ensures Slots(news - {l}, n) == Slots(news, n) - {l}
    ensures |Slots(news - {l}, n)| == |Slots(news, n)| - (if news[l] == n then 1 else 0)
  {
    assert Slots(news - {l}, n) == Slots(news, n) - {l};
  }

  lemma SlotsAdded(news: map<Slot, Id>, l: Slot, m: Id, n: Id)
    requires l !in news
    ensures |Slots(news[l := m], n)| == |Slots(news, n)| + (if m == n then 1 else 0)
  {
    assert Slots(news[l := m], n) == if m == n then Slots(news, n) + {l} else Slots(news, n);
  }

  // ---------- elementary updates ----------

  /** One entry changes, but neither its address nor its place in the random order. */
  ghost predicate OneChanged(info: map<Id, Info>, info': map<Id, Info>, n: Id) {
    && n in info && n in info' && info' == info[n := info'[n]]
    && info'[n].service == info[n].service && info'[n].randomPos == info[n].randomPos
  }

  lemma ChangeKeepsIndexes(info: map<Id, Info>, info': map<Id, Info>, n: Id,
                           random: seq<Id>, addr: map<NetAddr, Id>, nIdCount: Id)
    requires OneChanged(info, info', n)
    requires RandomOk(info, random) && AddrOk(info, addr) && IdsOk(info, nIdCount)
    ensures RandomOk(info', random) && AddrOk(info', addr) && IdsOk(info', nIdCount)
  {
    assert |info'.Keys| == |info.Keys| by { assert info'.Keys == info.Keys; }
  }

  /** ... and it stays in the same table. */
  lemma ChangeKeepsTables(h: Hashing, key: nat, info: map<Id, Info>, info': map<Id, Info>, n: Id,
                          tried: map<Slot, Id>, news: map<Slot, Id>, nTried: int, nNew: int, uncounted: int)
    requires OneChanged(info, info', n) && info'[n].inTried == info[n].inTried
    requires TriedOk(h, key, info, tried) && NewOk(h, key, info, news) && CountsOk(info, nTried, nNew, uncounted)
    ensures TriedOk(h, key, info', tried) && NewOk(h, key, info', news) && CountsOk(info', nTried, nNew, uncounted)
  {
    hide TriedSlot, NewSlot;
    assert TriedIds(info') == TriedIds(info) && NewIds(info') == NewIds(info);
  }

  /** Only statistics differ. */
  predicate SameLinks(a: Info, b: Info) {
    a.service == b.service && a.refCount == b.refCount && a.inTried == b.inTried && a.randomPos == b.randomPos
  }

  lemma StatsKeepInv(h: Hashing, s: Tables, n: Id, i: Info, limbo: set<Id>, uncounted: int)
    requires Inv(h, s, limbo, uncounted) && n in s.info && SameLinks(s.info[n], i)
    ensures Inv(h, s.(info := s.info[n := i]), limbo, uncounted)
  {
    hide RandomOk, AddrOk, IdsOk, TriedOk, NewOk, CountsOk, Slots;
    var info' := s.info[n := i];
    ChangeKeepsIndexes(s.info, info', n, s.random, s.addr, s.nIdCount);
    ChangeKeepsTables(h, s.key, s.info, info', n, s.tried, s.news, s.nTried, s.nNew, uncounted);
  }

  function Moved(info: map<Id, Info>, n: Id, k: int): map<Id, Info>
    requires n in info
  {
    info[n := info[n].(randomPos := k)]
  }

  predicate SameEntry(a: Info, b: Info) {
    b == a.(randomPos := b.randomPos)
  }

  /** Equal but for their places in the random order. */
  ghost predicate OnlyPositions(a: map<Id, Info>, b: map<Id, Info>) {
    && (forall n :: n in a ==> n in b && SameEntry(a[n], b[n]))
    && (forall n :: n in b ==> n in a && SameEntry(a[n], b[n]))
  }

  function Swapped(random: seq<Id>, i: nat, j: nat): seq<Id>
    requires i < |random| && j < |random|
  {
    random[i := random[j]][j := random[i]]
  }

  lemma SwapKeepsRandom(info: map<Id, Info>, random: seq<Id>, i: nat, j: nat)
    requires RandomOk(info, random) && i < |random| && j < |random| && i != j
    ensures var info' := Moved(Moved(info, random[i], j), random[j], i);
      RandomOk(info', Swapped(random, i, j)) && OnlyPositions(info, info')
  {
    var info' := Moved(Moved(info, random[i], j), random[j], i);
    assert info'.Keys == info.Keys;
    assert |info'| == |info'.Keys| == |info|;
  }

  lemma PositionsKeepIds(a: map<Id, Info>, b: map<Id, Info>)
    requires OnlyPositions(a, b)
    ensures TriedIds(a) == TriedIds(b) && NewIds(a) == NewIds(b)
    ensures forall n :: n in a ==> n in b && a[n].service == b[n].service && a[n].inTried == b[n].inTried
    ensures forall n :: n in b ==> n in a && a[n].service == b[n].service && a[n].inTried == b[n].inTried
  {
    assert forall n :: n in a ==> n in b && a[n].service == b[n].service && a[n].inTried == b[n].inTried;
    assert forall n :: n in b ==> n in a && a[n].service == b[n].service && a[n].inTried == b[n].inTried;
  }

  lemma PositionsKeepInv(h: Hashing, s: Tables, s': Tables, limbo: set<Id>, uncounted: int)
    requires Inv(h, s, limbo, uncounted) && OnlyPositions(s.info, s'.info) && RandomOk(s'.info, s'.random)
    requires s' == s.(info := s'.info, random := s'.random)
    ensures Inv(h, s', limbo, uncounted)
  {
    hide RandomOk, AddrOk, IdsOk, TriedOk, NewOk, RefsOk, CountsOk, OnlyPositions;
    PositionsKeepAddr(s.info, s'.info, s.addr, s.nIdCount);
    PositionsKeepSlots(h, s.key, s.info, s'.info, s.tried, s.news);
    PositionsKeepRefs(s.info, s'.info, s.news, limbo);
    PositionsKeepIds(s.info, s'.info);
    SameIdsKeepCounts(s.info, s'.info, s.nTried, s.nNew, uncounted);
  }

  lemma PositionsKeepAddr(a: map<Id, Info>, b: map<Id, Info>, addr: map<NetAddr, Id>, nIdCount: Id)
    requires OnlyPositions(a, b) && AddrOk(a, addr) && IdsOk(a, nIdCount)
    ensures AddrOk(b, addr) && IdsOk(b, nIdCount)
  {
  }

  lemma PositionsKeepSlots(h: Hashing, key: nat, a: map<Id, Info>, b: map<Id, Info>, tried: map<Slot, Id>, news: map<Slot, Id>)
    requires OnlyPositions(a, b) && TriedOk(h, key, a, tried) && NewOk(h, key, a, news)
    ensures TriedOk(h, key, b, tried) && NewOk(h, key, b, news)
  {
    hide TriedSlot, NewSlot;
    assert forall l :: l in tried ==> var n := tried[l]; n in a && SameEntry(a[n], b[n]);
    assert forall l :: l in news ==> var n := news[l]; n in a && SameEntry(a[n], b[n]);
  }

  lemma PositionsKeepRefs(a: map<Id, Info>, b: map<Id, Info>, news: map<Slot, Id>, limbo: set<Id>)
    requires OnlyPositions(a, b) && RefsOk(a, news, limbo)
    ensures RefsOk(b, news, limbo)
  {
    hide Slots;
  }

  lemma SameIdsKeepCounts(a: map<Id, Info>, b: map<Id, Info>, nTried: int, nNew: int, uncounted: int)
    requires TriedIds(a) == TriedIds(b) && NewIds(a) == NewIds(b) && CountsOk(a, nTried, nNew, uncounted)
    ensures CountsOk(b, nTried, nNew, uncounted)
  {
  }

  // ---------- creating and deleting an address ----------

  /** A new entry at the end of the random order. */
  lemma AppendNumbered(info: map<Id, Info>, random: seq<Id>, n: Id, i: Info)
    requires RandomOk(info, random) && n !in info && i.randomPos == |random|
    ensures RandomOk(info[n := i], random + [n])
  {
    var info' := info[n := i];
    assert |info'| == |info'.Keys| == |info.Keys| + 1 by { assert info'.Keys == info.Keys + {n}; }
  }

  lemma CreateKeepsIndexes(s: Tables, i: Info)
    requires RandomOk(s.info, s.random) && AddrOk(s.info, s.addr) && IdsOk(s.info, s.nIdCount)
    requires i.service.ip !in s.addr && i.randomPos == |s.random|
    ensures var n := s.nIdCount;
      && n !in s.info
      && RandomOk(s.info[n := i], s.random + [n]) && AddrOk(s.info[n := i], s.addr[i.service.ip := n])
      && IdsOk(s.info[n := i], n + 1)
  {
    AppendNumbered(s.info, s.random, s.nIdCount, i);
    hide RandomOk;
  }

  lemma CreateKeepsInv(h: Hashing, s: Tables, i: Info)
    requires Inv(h, s, {}, 0) && i.service.ip !in s.addr
    requires i.refCount == 0 && !i.inTried && i.randomPos == |s.random|
    ensures var n := s.nIdCount;
      n !in s.info &&
      Inv(h, s.(info := s.info[n := i], addr := s.addr[i.service.ip := n], random := s.random + [n],
                nIdCount := n + 1), {n}, 1)
  {
    hide RandomOk, AddrOk, IdsOk, TriedOk, NewOk, RefsOk, CountsOk;
    CreateKeepsIndexes(s, i);
    CreateKeepsTables(h, s.key, s.info, s.nIdCount, i, s.tried, s.news);
    CreateKeepsRefs(h, s.key, s.info, s.nIdCount, i, s.news);
    CreateKeepsCounts(s.info, s.nIdCount, i, s.nTried, s.nNew);
  }

  lemma CreateKeepsTables(h: Hashing, key: nat, info: map<Id, Info>, n: Id, i: Info, tried: map<Slot, Id>, news: map<Slot, Id>)
    requires TriedOk(h, key, info, tried) && NewOk(h, key, info, news) && n !in info && !i.inTried
    ensures TriedOk(h, key, info[n := i], tried) && NewOk(h, key, info[n := i], news)
  {
    hide TriedSlot, NewSlot;
  }

  lemma CreateKeepsRefs(h: Hashing, key: nat, info: map<Id, Info>, n: Id, i: Info, news: map<Slot, Id>)
    requires NewOk(h, key, info, news) && RefsOk(info, news, {}) && n !in info && !i.inTried && i.refCount == 0
    ensures RefsOk(info[n := i], news, {n})
  {
    hide NewSlot;
    assert Slots(news, n) == {};
    hide Slots;
  }

  lemma CreateKeepsCounts(info: map<Id, Info>, n: Id, i: Info, nTried: int, nNew: int)
    requires CountsOk(info, nTried, nNew, 0) && n !in info && !i.inTried
    ensures CountsOk(info[n := i], nTried, nNew, 1)
  {
    var info' := info[n := i];
    assert TriedIds(info') == TriedIds(info) && NewIds(info') == NewIds(info) + {n};
  }

  lemma DeleteKeepsIndexes(s: Tables, n: Id)
    requires RandomOk(s.info, s.random) && AddrOk(s.info, s.addr) && IdsOk(s.info, s.nIdCount)
    requires n in s.info && s.info[n].randomPos == |s.random| - 1
    ensures RandomOk(s.info - {n}, s.random[..|s.random| - 1]) && IdsOk(s.info - {n}, s.nIdCount)
    ensures AddrOk(s.info - {n}, s.addr - {s.info[n].service.ip})
  {
    DeleteKeepsRandom(s.info, s.random, n);
    hide RandomOk;
  }

  lemma DeleteKeepsRandom(info: map<Id, Info>, random: seq<Id>, n: Id)
    requires RandomOk(info, random) && n in info && info[n].randomPos == |random| - 1
    ensures RandomOk(info - {n}, random[..|random| - 1])
  {
    var info' := info - {n};
    assert |info'| == |info'.Keys| == |info.Keys| - 1 by { assert info'.Keys == info.Keys - {n}; }
  }

  /** Deleting the address that is last in the random order. */
  lemma DeleteLastKeepsInv(h: Hashing, s: Tables, n: Id, limbo: set<Id>, uncounted: int)
    requires Inv(h, s, limbo, uncounted) && n in s.info && !s.info[n].inTried && s.info[n].refCount == 0
    requires s.info[n].randomPos == |s.random| - 1
    ensures Inv(h, s.(info := s.info - {n}, addr := s.addr - {s.info[n].service.ip},
                      random := s.random[..|s.random| - 1], nNew := s.nNew - 1), limbo - {n}, uncounted)
  {
    hide RandomOk, AddrOk, IdsOk, TriedOk, NewOk, RefsOk, CountsOk;
    DeleteKeepsIndexes(s, n);
    Unreferenced(s.info, s.news, n, limbo);
    DeleteKeepsTables(h, s.key, s.info, n, s.tried, s.news);
    DeleteKeepsRefs(s.info, s.news, n, limbo);
    DeleteKeepsCounts(s.info, n, s.nTried, s.nNew, uncounted);
  }

  lemma Unreferenced(info: map<Id, Info>, news: map<Slot, Id>, n: Id, limbo: set<Id>)
    requires RefsOk(info, news, limbo) && n in info && info[n].refCount == 0
    ensures forall l :: l in news ==> news[l] != n
  {
    assert Slots(news, n) == {};
    assert forall l :: l in news && news[l] == n ==> l in Slots(news, n);
  }

  lemma DeleteKeepsTables(h: Hashing, key: nat, info: map<Id, Info>, n: Id, tried: map<Slot, Id>, news: map<Slot, Id>)
    requires TriedOk(h, key, info, tried) && NewOk(h, key, info, news) && n in info && !info[n].inTried
    requires forall l :: l in news ==> news[l] != n
    ensures TriedOk(h, key, info - {n}, tried) && NewOk(h, key, info - {n}, news)
  {
    hide TriedSlot, NewSlot;
  }

  lemma DeleteKeepsRefs(info: map<Id, Info>, news: map<Slot, Id>, n: Id, limbo: set<Id>)
    requires RefsOk(info, news, limbo)
    ensures RefsOk(info - {n}, news, limbo - {n})
  {
    hide Slots;
  }

  lemma DeleteKeepsCounts(info: map<Id, Info>, n: Id, nTried: int, nNew: int, uncounted: int)
    requires CountsOk(info, nTried, nNew, uncounted) && n in info && !info[n].inTried
    ensures CountsOk(info - {n}, nTried, nNew - 1, uncounted)
  {
    var info' := info - {n};
    assert TriedIds(info') == TriedIds(info) && NewIds(info') == NewIds(info) - {n};
  }

  // ---------- new slots ----------

  function Counted(info: map<Id, Info>, n: Id, d: int): map<Id, Info>
    requires n in info
  {
    info[n := info[n].(refCount := info[n].refCount + d)]
  }

  lemma DropKeepsRefs(info: map<Id, Info>, news: map<Slot, Id>, l: Slot, limbo: set<Id>)
    requires RefsOk(info, news, limbo) && l in news && news[l] in info && !info[news[l]].inTried
    ensures info[news[l]].refCount > 0
    ensures RefsOk(Counted(info, news[l], -1), news - {l}, limbo + {news[l]})
  {
    var n := news[l];
    assert l in Slots(news, n);
    forall m ensures |Slots(news - {l}, m)| == |Slots(news, m)| - (if n == m then 1 else 0) {
      SlotsRemoved(news, l, m);
    }
    hide Slots;
  }

  lemma DropSlotKeepsInv(h: Hashing, s: Tables, l: Slot, limbo: set<Id>, uncounted: int)
    requires Inv(h, s, limbo, uncounted) && l in s.news
    ensures var n := s.news[l];
      n in s.info && s.info[n].refCount > 0 &&
      Inv(h, s.(info := Counted(s.info, n, -1), news := s.news - {l}), limbo + {n}, uncounted)
  {
    hide RandomOk, AddrOk, IdsOk, TriedOk, CountsOk, RefsOk, NewSlot;
    var n := s.news[l];
    var info' := Counted(s.info, n, -1);
    ChangeKeepsIndexes(s.info, info', n, s.random, s.addr, s.nIdCount);
    ChangeKeepsTables(h, s.key, s.info, info', n, s.tried, s.news, s.nTried, s.nNew, uncounted);
    DropKeepsRefs(s.info, s.news, l, limbo);
  }

  lemma PutKeepsRefs(info: map<Id, Info>, news: map<Slot, Id>, l: Slot, n: Id, limbo: set<Id>)
    requires RefsOk(info, news, limbo) && l !in news && n in info && info[n].refCount < NEW_BUCKETS_PER_ADDRESS
    ensures RefsOk(Counted(info, n, 1), news[l := n], limbo - {n})
  {
    forall m ensures |Slots(news[l := n], m)| == |Slots(news, m)| + (if n == m then 1 else 0) {
      SlotsAdded(news, l, n, m);
    }
    hide Slots;
  }

  lemma PutSlotKeepsInv(h: Hashing, s: Tables, n: Id, bucket: nat, limbo: set<Id>, uncounted: int)
    requires Inv(h, s, limbo, uncounted) && n in s.info && !s.info[n].inTried
    requires s.info[n].refCount < NEW_BUCKETS_PER_ADDRESS && bucket < NEW_BUCKET_COUNT
    requires NewSlot(h, s.key, s.info[n].service, bucket) !in s.news
    ensures var l := NewSlot(h, s.key, s.info[n].service, bucket);
      Inv(h, s.(info := Counted(s.info, n, 1), news := s.news[l := n]), limbo - {n}, uncounted)
  {
    hide RandomOk, AddrOk, IdsOk, TriedOk, CountsOk, RefsOk;
    var l := NewSlot(h, s.key, s.info[n].service, bucket);
    var info' := Counted(s.info, n, 1);
    ChangeKeepsIndexes(s.info, info', n, s.random, s.addr, s.nIdCount);
    ChangeKeepsTables(h, s.key, s.info, info', n, s.tried, s.news, s.nTried, s.nNew, uncounted);
    PutKeepsRefs(s.info, s.news, l, n, limbo);
  }

  lemma LimboLeft(h: Hashing, s: Tables, n: Id, limbo: set<Id>, uncounted: int)
    requires Inv(h, s, limbo, uncounted) && n in s.info && s.info[n].refCount > 0
    ensures Inv(h, s, limbo - {n}, uncounted)
  {
    hide RandomOk, AddrOk, IdsOk, TriedOk, NewOk, CountsOk, Slots;
  }

  lemma LimboEntered(h: Hashing, s: Tables, n: Id, limbo: set<Id>, uncounted: int)
    requires Inv(h, s, limbo, uncounted) && n in s.info && !s.info[n].inTried
    ensures Inv(h, s, limbo + {n}, uncounted)
  {
    hide RandomOk, AddrOk, IdsOk, TriedOk, NewOk, CountsOk, Slots;
  }

  // ---------- the tried table ----------

  function Marked(info: map<Id, Info>, n: Id, inTried: bool): map<Id, Info>
    requires n in info
  {
    info[n := info[n].(inTried := inTried)]
  }

  lemma MarkMovesCounts(info: map<Id, Info>, n: Id, b: bool, nTried: int, nNew: int, uncounted: int)
    requires n in info && info[n].inTried == !b && CountsOk(info, nTried, nNew, uncounted)
    ensures CountsOk(Marked(info, n, b), nTried + (if b then 1 else -1), nNew, uncounted - (if b then 1 else -1))
  {
    var info' := Marked(info, n, b);
    if b {
      assert TriedIds(info') == TriedIds(info) + {n} && NewIds(info') == NewIds(info) - {n};
    } else {
      assert TriedIds(info') == TriedIds(info) - {n} && NewIds(info') == NewIds(info) + {n};
    }
  }

  lemma UntryKeepsInv(h: Hashing, s: Tables, l: Slot, limbo: set<Id>, uncounted: int)
    requires Inv(h, s, limbo, uncounted) && l in s.tried
    ensures var n := s.tried[l];
      n in s.info && s.info[n].inTried && s.info[n].refCount == 0 &&
      Inv(h, s.(info := Marked(s.info, n, false), tried := s.tried - {l}, nTried := s.nTried - 1),
          limbo + {n}, uncounted + 1)
  {
    hide RandomOk, AddrOk, IdsOk, CountsOk, TriedSlot, NewSlot, Slots, TriedOk, NewOk, RefsOk;
    UntryKeepsTables(h, s.key, s.info, l, s.tried, s.news);
    var n := s.tried[l];
    TriedHasNoSlots(h, s, limbo, uncounted, n);
    UntryKeepsRefs(s.info, s.news, n, limbo);
    MarkMovesCounts(s.info, n, false, s.nTried, s.nNew, uncounted);
    ChangeKeepsIndexes(s.info, Marked(s.info, n, false), n, s.random, s.addr, s.nIdCount);
  }

  lemma UntryKeepsRefs(info: map<Id, Info>, news: map<Slot, Id>, n: Id, limbo: set<Id>)
    requires RefsOk(info, news, limbo) && n in info
    ensures RefsOk(Marked(info, n, false), news, limbo + {n})
  {
    hide Slots;
  }

  lemma UntryKeepsTables(h: Hashing, key: nat, info: map<Id, Info>, l: Slot, tried: map<Slot, Id>, news: map<Slot, Id>)
    requires TriedOk(h, key, info, tried) && NewOk(h, key, info, news) && l in tried
    ensures tried[l] in info && info[tried[l]].inTried
    ensures TriedOk(h, key, Marked(info, tried[l], false), tried - {l}) && NewOk(h, key, Marked(info, tried[l], false), news)
  {
    hide TriedSlot, NewSlot;
  }

  lemma TryKeepsInv(h: Hashing, s: Tables, n: Id, limbo: set<Id>, uncounted: int)
    requires Inv(h, s, limbo, uncounted) && n in s.info && !s.info[n].inTried && s.info[n].refCount == 0
    requires TriedSlot(h, s.key, s.info[n].service) !in s.tried
    ensures var l := TriedSlot(h, s.key, s.info[n].service);
      Inv(h, s.(info := Marked(s.info, n, true), tried := s.tried[l := n], nTried := s.nTried + 1),
          limbo - {n}, uncounted - 1)
  {
    hide RandomOk, AddrOk, IdsOk, CountsOk, RefsOk, TriedOk, NewOk, TriedSlot, NewSlot;
    Unreferenced(s.info, s.news, n, limbo);
    TryKeepsTables(h, s.key, s.info, n, s.tried, s.news);
    TryKeepsRefs(s.info, s.news, n, limbo);
    MarkMovesCounts(s.info, n, true, s.nTried, s.nNew, uncounted);
    ChangeKeepsIndexes(s.info, Marked(s.info, n, true), n, s.random, s.addr, s.nIdCount);
  }

  lemma TryKeepsTables(h: Hashing, key: nat, info: map<Id, Info>, n: Id, tried: map<Slot, Id>, news: map<Slot, Id>)
    requires TriedOk(h, key, info, tried) && NewOk(h, key, info, news) && n in info && !info[n].inTried
    requires TriedSlot(h, key, info[n].service) !in tried && forall l :: l in news ==> news[l] != n
    ensures TriedOk(h, key, Marked(info, n, true), tried[TriedSlot(h, key, info[n].service) := n])
    ensures NewOk(h, key, Marked(info, n, true), news)
  {
    hide TriedSlot, NewSlot;
  }

  lemma TryKeepsRefs(info: map<Id, Info>, news: map<Slot, Id>, n: Id, limbo: set<Id>)
    requires RefsOk(info, news, limbo) && n in info && info[n].refCount == 0
    ensures RefsOk(Marked(info, n, true), news, limbo - {n})
  {
    hide Slots;
  }
}
