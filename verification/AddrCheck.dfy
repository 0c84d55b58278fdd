/** The executable consistency check of the address manager (src/addrman.cpp), and what it decides. */
module AddrCheck {
  import opened AddrTables

  /** In an array every slot is within bounds. */
  ghost predicate InBounds(s: Tables) {
    && (forall l :: l in s.tried ==> l.bucket < TRIED_BUCKET_COUNT && l.pos < BUCKET_SIZE)
    && (forall l :: l in s.news ==> l.bucket < NEW_BUCKET_COUNT && l.pos < BUCKET_SIZE)
  }

  predicate EntryPasses(s: Tables, n: Id)
    requires n in s.info
  {
    var i := s.info[n];
    && (if i.inTried then i.lastSuccess != 0 && i.refCount == 0 else 1 <= i.refCount <= NEW_BUCKETS_PER_ADDRESS)
    && (if i.service.ip in s.addr then s.addr[i.service.ip] else 0) == n
    && 0 <= i.randomPos < |s.random| && s.random[i.randomPos] == n
    && i.lastTry >= 0 && i.lastSuccess >= 0
  }

  ghost predicate RefsExact(info: map<Id, Info>, news: map<Slot, Id>) {
    forall n :: n in info && !info[n].inTried ==> info[n].refCount == |Slots(news, n)|
  }

  /** What the check is meant to decide. */
  ghost predicate Consistent(h: Hashing, s: Tables) {
    && s.key != 0 && |s.random| == s.nTried + s.nNew
    && (forall n :: n in s.info ==> EntryPasses(s, n))
    && CountsOk(s.info, s.nTried, s.nNew, 0)
    && TriedOk(h, s.key, s.info, s.tried) && NewOk(h, s.key, s.info, s.news) && RefsExact(s.info, s.news)
  }

  /** Nested loops visit the slots in this order. */
  predicate Before(l: Slot, bucket: nat, pos: nat) {
    l.bucket < bucket || (l.bucket == bucket && l.pos < pos)
  }

  lemma BeforeNext(bucket: nat, pos: nat)
    ensures forall l: Slot {:trigger l.bucket} :: Before(l, bucket, pos + 1) <==> Before(l, bucket, pos) || l == Slot(bucket, pos)
  {
  }

  // ---------- the tried table ----------

  ghost predicate TriedSoFar(h: Hashing, s: Tables, bucket: nat, pos: nat) {
    forall l :: l in s.tried && Before(l, bucket, pos) ==>
      s.tried[l] in TriedIds(s.info) && l == TriedSlot(h, s.key, s.info[s.tried[l]].service)
  }

  ghost predicate Missing(h: Hashing, s: Tables, bucket: nat, pos: nat, missing: set<Id>) {
    && missing <= TriedIds(s.info)
    && forall n :: n in TriedIds(s.info) && n !in missing ==>
         var l := TriedSlot(h, s.key, s.info[n].service);
         l in s.tried && s.tried[l] == n && Before(l, bucket, pos)
  }

  ghost predicate MissingAhead(h: Hashing, s: Tables, bucket: nat, pos: nat, missing: set<Id>) {
    forall l :: l in s.tried && Before(l, bucket, pos) ==> s.tried[l] !in missing
  }

  ghost predicate TriedLoop(h: Hashing, s: Tables, bucket: nat, pos: nat, missing: set<Id>) {
    TriedSoFar(h, s, bucket, pos) && Missing(h, s, bucket, pos, missing) && MissingAhead(h, s, bucket, pos, missing)
  }

  lemma TriedSkip(h: Hashing, s: Tables, bucket: nat, pos: nat, missing: set<Id>)
    requires TriedLoop(h, s, bucket, pos, missing) && Slot(bucket, pos) !in s.tried
    ensures TriedLoop(h, s, bucket, pos + 1, missing)
  {
    hide TriedSlot, TriedIds;
    assert forall l :: l in s.tried && Before(l, bucket, pos + 1) ==> Before(l, bucket, pos);
  }

  lemma TriedTake(h: Hashing, s: Tables, bucket: nat, pos: nat, missing: set<Id>)
    requires TriedLoop(h, s, bucket, pos, missing) && Slot(bucket, pos) in s.tried
    requires var n := s.tried[Slot(bucket, pos)];
      n in missing && n in s.info && Slot(bucket, pos) == TriedSlot(h, s.key, s.info[n].service)
    ensures TriedLoop(h, s, bucket, pos + 1, missing - {s.tried[Slot(bucket, pos)]})
  {
    hide TriedSlot, TriedIds;
    BeforeNext(bucket, pos);
  }

  lemma TriedRefuse(h: Hashing, s: Tables, bucket: nat, pos: nat, missing: set<Id>)
    requires TriedLoop(h, s, bucket, pos, missing) && Slot(bucket, pos) in s.tried
    requires s.tried[Slot(bucket, pos)] !in missing
    ensures !TriedOk(h, s.key, s.info, s.tried)
  {
    hide TriedSlot;
    var n := s.tried[Slot(bucket, pos)];
    assert TriedOk(h, s.key, s.info, s.tried) ==> n in TriedIds(s.info);
  }

  lemma TriedRow(h: Hashing, s: Tables, bucket: nat, missing: set<Id>)
    requires TriedLoop(h, s, bucket, BUCKET_SIZE, missing) && InBounds(s)
    ensures TriedLoop(h, s, bucket + 1, 0, missing)
  {
    hide TriedSlot, TriedIds;
    assert forall l :: l in s.tried ==> (Before(l, bucket, BUCKET_SIZE) <==> Before(l, bucket + 1, 0));
  }

  lemma TriedDone(h: Hashing, s: Tables, missing: set<Id>)
    requires TriedLoop(h, s, TRIED_BUCKET_COUNT, 0, missing) && InBounds(s)
    ensures missing == {} <==> TriedOk(h, s.key, s.info, s.tried)
  {
    hide TriedSlot;
    forall l | l in s.tried ensures Before(l, TRIED_BUCKET_COUNT, 0) {
    }
    if n :| n in missing {
      assert n in TriedIds(s.info);
    } else {
      assert missing == {};
      forall n | n in s.info && s.info[n].inTried
        ensures TriedSlot(h, s.key, s.info[n].service) in s.tried && s.tried[TriedSlot(h, s.key, s.info[n].service)] == n
      {
        assert n in TriedIds(s.info);
      }
    }
  }

  lemma TriedStart(h: Hashing, s: Tables)
    ensures TriedLoop(h, s, 0, 0, TriedIds(s.info))
  {
  }

  lemma StillMissing(h: Hashing, s: Tables, bucket: nat, pos: nat, missing: set<Id>, n: Id)
    requires TriedLoop(h, s, bucket, pos, missing) && n in missing
    ensures n in s.info && s.info[n].inTried
  {
  }

  lemma WrongSlot(h: Hashing, s: Tables, l: Slot)
    requires l in s.tried && s.tried[l] in s.info && l != TriedSlot(h, s.key, s.info[s.tried[l]].service)
    ensures !TriedOk(h, s.key, s.info, s.tried)
  {
  }

  method CheckTried(h: Hashing, s: Tables) returns (code: int)
    requires InBounds(s)
    ensures code == 0 <==> TriedOk(h, s.key, s.info, s.tried)
  {
    hide TriedOk, TriedLoop, TriedIds, TriedSlot, InBounds;
    var missing := TriedIds(s.info);
    TriedStart(h, s);
    for bucket: nat := 0 to TRIED_BUCKET_COUNT
      invariant TriedLoop(h, s, bucket, 0, missing)
    {
      for pos: nat := 0 to BUCKET_SIZE
        invariant TriedLoop(h, s, bucket, pos, missing)
      {
        var l := Slot(bucket, pos);
        if l in s.tried {
          var n := s.tried[l];
          if n !in missing {
            TriedRefuse(h, s, bucket, pos, missing);
            return -11;
          }
          StillMissing(h, s, bucket, pos, missing, n);
          var b := TriedBucket(h, s.key, s.info[n].service);
          SlotParts(h, s.key, s.info[n].service, l);
          if b != bucket {
            WrongSlot(h, s, l);
            return -17;
          }
          if BucketPosition(h, s.key, false, bucket, s.info[n].service) != pos {
            WrongSlot(h, s, l);
            return -18;
          }
          TriedTake(h, s, bucket, pos, missing);
          missing := missing - {n};
        } else {
          TriedSkip(h, s, bucket, pos, missing);
        }
      }
      TriedRow(h, s, bucket, missing);
    }
    TriedDone(h, s, missing);
    code := if missing != {} then -13 else 0;
  }

  lemma SlotParts(h: Hashing, key: nat, a: Service, l: Slot)
    ensures l == TriedSlot(h, key, a) <==>
            TriedBucket(h, key, a) == l.bucket && BucketPosition(h, key, false, l.bucket, a) == l.pos
  {
  }

  // ---------- the new table ----------

  function Seen(news: map<Slot, Id>, n: Id, bucket: nat, pos: nat): set<Slot> {
    set l | l in news && news[l] == n && Before(l, bucket, pos)
  }

  function References(info: map<Id, Info>): map<Id, int> {
    map n | n in info && !info[n].inTried :: info[n].refCount
  }

  /** What is left to be found: a positive number for each address not found often enough yet. */
  ghost predicate LeftExact(s: Tables, bucket: nat, pos: nat, left: map<Id, int>) {
    && (forall n :: n in left ==>
          && n in s.info && !s.info[n].inTried && left[n] > 0
          && left[n] + |Seen(s.news, n, bucket, pos)| == s.info[n].refCount)
    && (forall n :: n in s.info && !s.info[n].inTried && n !in left ==>
          |Seen(s.news, n, bucket, pos)| == s.info[n].refCount)
  }

  ghost predicate NewSoFar(h: Hashing, s: Tables, bucket: nat, pos: nat) {
    forall l :: l in s.news && Before(l, bucket, pos) ==>
      && s.news[l] in s.info && !s.info[s.news[l]].inTried
      && l == NewSlot(h, s.key, s.info[s.news[l]].service, l.bucket)
  }

  ghost predicate NewLoop(h: Hashing, s: Tables, bucket: nat, pos: nat, left: map<Id, int>) {
    NewSoFar(h, s, bucket, pos) && LeftExact(s, bucket, pos, left)
  }

  lemma SeenNext(news: map<Slot, Id>, n: Id, bucket: nat, pos: nat)
    ensures |Seen(news, n, bucket, pos + 1)| ==
            |Seen(news, n, bucket, pos)| + (if Slot(bucket, pos) in news && news[Slot(bucket, pos)] == n then 1 else 0)
  {
    var l := Slot(bucket, pos);
    assert Seen(news, n, bucket, pos + 1) ==
      if l in news && news[l] == n then Seen(news, n, bucket, pos) + {l} else Seen(news, n, bucket, pos);
  }

  lemma NewStart(h: Hashing, s: Tables)
    requires forall n :: n in s.info && !s.info[n].inTried ==> s.info[n].refCount > 0
    ensures NewLoop(h, s, 0, 0, References(s.info))
  {
    assert forall n :: Seen(s.news, n, 0, 0) == {};
  }

  lemma NewSkip(h: Hashing, s: Tables, bucket: nat, pos: nat, left: map<Id, int>)
    requires NewLoop(h, s, bucket, pos, left) && Slot(bucket, pos) !in s.news
    ensures NewLoop(h, s, bucket, pos + 1, left)
  {
    hide NewSlot;
    forall n ensures |Seen(s.news, n, bucket, pos + 1)| == |Seen(s.news, n, bucket, pos)| {
      SeenNext(s.news, n, bucket, pos);
    }
    hide Seen;
    assert forall l :: l in s.news && Before(l, bucket, pos + 1) ==> Before(l, bucket, pos);
  }

  function Found(left: map<Id, int>, n: Id): map<Id, int>
    requires n in left
  {
    if left[n] == 1 then left - {n} else left[n := left[n] - 1]
  }

  lemma NewTake(h: Hashing, s: Tables, bucket: nat, pos: nat, left: map<Id, int>)
    requires NewLoop(h, s, bucket, pos, left) && Slot(bucket, pos) in s.news
    requires var n := s.news[Slot(bucket, pos)];
      n in left && n in s.info && BucketPosition(h, s.key, true, bucket, s.info[n].service) == pos
    ensures NewLoop(h, s, bucket, pos + 1, Found(left, s.news[Slot(bucket, pos)]))
  {
    hide NewSlot;
    LeftTake(s, bucket, pos, left);
    hide LeftExact, Seen;
    OwnNewSlot(h, s, bucket, pos);
    BeforeNext(bucket, pos);
  }

  lemma OwnNewSlot(h: Hashing, s: Tables, bucket: nat, pos: nat)
    requires Slot(bucket, pos) in s.news
    requires var n := s.news[Slot(bucket, pos)]; n in s.info && BucketPosition(h, s.key, true, bucket, s.info[n].service) == pos
    ensures Slot(bucket, pos) == NewSlot(h, s.key, s.info[s.news[Slot(bucket, pos)]].service, bucket)
  {
  }

  lemma LeftTake(s: Tables, bucket: nat, pos: nat, left: map<Id, int>)
    requires LeftExact(s, bucket, pos, left) && Slot(bucket, pos) in s.news && s.news[Slot(bucket, pos)] in left
    ensures LeftExact(s, bucket, pos + 1, Found(left, s.news[Slot(bucket, pos)]))
  {
    var l := Slot(bucket, pos);
    forall n ensures |Seen(s.news, n, bucket, pos + 1)| == |Seen(s.news, n, bucket, pos)| + (if s.news[l] == n then 1 else 0) {
      SeenNext(s.news, n, bucket, pos);
    }
    hide Seen;
  }

  /** An address found once more than it has references. */
  lemma NewRefuse(h: Hashing, s: Tables, bucket: nat, pos: nat, left: map<Id, int>)
    requires NewLoop(h, s, bucket, pos, left) && Slot(bucket, pos) in s.news && s.news[Slot(bucket, pos)] !in left
    ensures !(NewOk(h, s.key, s.info, s.news) && RefsExact(s.info, s.news))
  {
    var n := s.news[Slot(bucket, pos)];
    if NewOk(h, s.key, s.info, s.news) && RefsExact(s.info, s.news) {
      assert n in s.info && !s.info[n].inTried;
      SeenNext(s.news, n, bucket, pos);
      SeenIsPart(s.news, n, bucket, pos + 1);
    }
  }

  lemma SeenIsPart(news: map<Slot, Id>, n: Id, bucket: nat, pos: nat)
    ensures |Seen(news, n, bucket, pos)| <= |Slots(news, n)|
  {
    var seen, rest := Seen(news, n, bucket, pos), Slots(news, n) - Seen(news, n, bucket, pos);
    assert Slots(news, n) == seen + rest;
  }

  lemma NewRow(h: Hashing, s: Tables, bucket: nat, left: map<Id, int>)
    requires NewLoop(h, s, bucket, BUCKET_SIZE, left) && InBounds(s)
    ensures NewLoop(h, s, bucket + 1, 0, left)
  {
    hide NewSlot;
    forall n ensures Seen(s.news, n, bucket, BUCKET_SIZE) == Seen(s.news, n, bucket + 1, 0) {
    }
    hide Seen;
    assert forall l :: l in s.news ==> (Before(l, bucket, BUCKET_SIZE) <==> Before(l, bucket + 1, 0));
  }

  lemma NewDone(h: Hashing, s: Tables, left: map<Id, int>)
    requires NewLoop(h, s, NEW_BUCKET_COUNT, 0, left) && InBounds(s)
    ensures left == map[] <==> NewOk(h, s.key, s.info, s.news) && RefsExact(s.info, s.news)
  {
    hide NewSlot;
    forall n ensures Seen(s.news, n, NEW_BUCKET_COUNT, 0) == Slots(s.news, n) {
    }
    hide Seen, Slots;
    if n :| n in left {
      assert left[n] > 0;
    } else {
      assert left == map[];
    }
  }

  lemma StillLeft(h: Hashing, s: Tables, bucket: nat, pos: nat, left: map<Id, int>, n: Id)
    requires NewLoop(h, s, bucket, pos, left) && n in left
    ensures n in s.info && left[n] > 0
  {
  }

  lemma WrongPosition(h: Hashing, s: Tables, l: Slot)
    requires l in s.news && s.news[l] in s.info
    requires BucketPosition(h, s.key, true, l.bucket, s.info[s.news[l]].service) != l.pos
    ensures !NewOk(h, s.key, s.info, s.news)
  {
  }

  method CheckNew(h: Hashing, s: Tables) returns (code: int)
    requires InBounds(s) && forall n :: n in s.info && !s.info[n].inTried ==> s.info[n].refCount > 0
    ensures code == 0 <==> NewOk(h, s.key, s.info, s.news) && RefsExact(s.info, s.news)
  {
    hide NewOk, NewLoop, RefsExact, NewSlot, InBounds;
    var left := References(s.info);
    NewStart(h, s);
    for bucket: nat := 0 to NEW_BUCKET_COUNT
      invariant NewLoop(h, s, bucket, 0, left)
    {
      for pos: nat := 0 to BUCKET_SIZE
        invariant NewLoop(h, s, bucket, pos, left)
      {
        var l := Slot(bucket, pos);
        if l in s.news {
          var n := s.news[l];
          if n !in left {
            NewRefuse(h, s, bucket, pos, left);
            return -12;
          }
          StillLeft(h, s, bucket, pos, left, n);
          if BucketPosition(h, s.key, true, bucket, s.info[n].service) != pos {
            WrongPosition(h, s, l);
            return -19;
          }
          NewTake(h, s, bucket, pos, left);
          left := if left[n] == 1 then left - {n} else left[n := left[n] - 1];
        } else {
          NewSkip(h, s, bucket, pos, left);
        }
      }
      NewRow(h, s, bucket, left);
    }
    NewDone(h, s, left);
    code := if left != map[] then -15 else 0;
  }

  // ---------- the whole check ----------

  method CheckEntry(s: Tables, n: Id) returns (code: int)
    requires n in s.info
    ensures code == 0 <==> EntryPasses(s, n)
  {
    var i := s.info[n];
    if i.inTried {
      if i.lastSuccess == 0 { return -1; }
      if i.refCount != 0 { return -2; }
    } else {
      if i.refCount < 0 || i.refCount > NEW_BUCKETS_PER_ADDRESS { return -3; }
      if i.refCount == 0 { return -4; }
    }
    if (if i.service.ip in s.addr then s.addr[i.service.ip] else 0) != n { return -5; }
    if i.randomPos < 0 || i.randomPos >= |s.random| || s.random[i.randomPos] != n { return -14; }
    if i.lastTry < 0 { return -6; }
    if i.lastSuccess < 0 { return -8; }
    return 0;
  }

  ghost predicate EntriesLoop(s: Tables, todo: set<Id>, triedIds: set<Id>, newIds: set<Id>) {
    && (forall n :: n in s.info && n !in todo ==> EntryPasses(s, n))
    && triedIds == TriedIds(s.info) - todo && newIds == NewIds(s.info) - todo
  }

  lemma EntriesStart(s: Tables)
    ensures EntriesLoop(s, s.info.Keys, {}, {})
  {
  }

  lemma EntriesNext(s: Tables, todo: set<Id>, triedIds: set<Id>, newIds: set<Id>, n: Id)
    requires EntriesLoop(s, todo, triedIds, newIds) && n in todo && n in s.info && EntryPasses(s, n)
    ensures EntriesLoop(s, todo - {n}, if s.info[n].inTried then triedIds + {n} else triedIds,
                        if s.info[n].inTried then newIds else newIds + {n})
  {
    hide EntryPasses;
  }

  lemma EntriesDone(s: Tables, triedIds: set<Id>, newIds: set<Id>)
    requires EntriesLoop(s, {}, triedIds, newIds)
    ensures triedIds == TriedIds(s.info) && newIds == NewIds(s.info)
    ensures forall n :: n in s.info ==> EntryPasses(s, n)
  {
    hide EntryPasses;
  }

  method CheckEntries(s: Tables) returns (code: int, triedIds: set<Id>, newIds: set<Id>)
    ensures code == 0 <==> forall n :: n in s.info ==> EntryPasses(s, n)
    ensures code == 0 ==> triedIds == TriedIds(s.info) && newIds == NewIds(s.info)
  {
    hide EntryPasses, TriedIds, NewIds, EntriesLoop;
    code, triedIds, newIds := 0, {}, {};
    var todo := s.info.Keys;
    EntriesStart(s);
    while todo != {}
      invariant todo <= s.info.Keys && code == 0 && EntriesLoop(s, todo, triedIds, newIds)
      decreases |todo|
    {
      var n :| n in todo;
      code := CheckEntry(s, n);
      if code != 0 {
        return;
      }
      EntriesNext(s, todo, triedIds, newIds, n);
      todo := todo - {n};
      if s.info[n].inTried {
        triedIds := triedIds + {n};
      } else {
        newIds := newIds + {n};
      }
    }
    EntriesDone(s, triedIds, newIds);
  }

  /** The check returns 0 exactly for the consistent tables. */
  method Check(h: Hashing, s: Tables) returns (code: int)
    requires InBounds(s)
    ensures code == 0 <==> Consistent(h, s)
  {
    hide InBounds, TriedOk, NewOk, RefsExact, TriedIds, NewIds, EntryPasses;
    if |s.random| != s.nTried + s.nNew { return -7; }
    var triedIds, newIds;
    code, triedIds, newIds := CheckEntries(s);
    if code != 0 { return; }
    if |triedIds| != s.nTried { return -9; }
    if |newIds| != s.nNew { return -10; }
    code := CheckTried(h, s);
    if code != 0 { return; }
    PassingRefs(s);
    code := CheckNew(h, s);
    if code != 0 { return; }
    code := if s.key == 0 then -16 else 0;
  }

  lemma PassingRefs(s: Tables)
    requires forall n :: n in s.info ==> EntryPasses(s, n)
    ensures forall n :: n in s.info && !s.info[n].inTried ==> s.info[n].refCount > 0
  {
    forall n | n in s.info && !s.info[n].inTried ensures s.info[n].refCount > 0 {
      assert EntryPasses(s, n);
    }
  }

  // ---------- the check and the invariant ----------

  /** What every operation keeps is enough for the check to pass. */
  lemma InvPasses(h: Hashing, s: Tables)
    requires Inv(h, s, {}, 0) && TimesOk(s.info)
    ensures InBounds(s) && Consistent(h, s)
  {
    KeysSize(s.info);
    forall n | n in s.info ensures EntryPasses(s, n) {
      if s.info[n].inTried {
        TriedHasNoSlots(h, s, {}, 0, n);
      }
    }
  }

  lemma {:induction false} PlacesSize(info: map<Id, Info>, ids: set<Id>, places: set<int>)
    requires ids <= info.Keys && places == set n | n in ids :: info[n].randomPos
    requires forall m, n :: m in ids && n in ids && info[m].randomPos == info[n].randomPos ==> m == n
    ensures |places| == |ids|
    decreases |ids|
  {
    if n :| n in ids {
      var rest := ids - {n};
      var places' := set m | m in rest :: info[m].randomPos;
      assert places == places' + {info[n].randomPos};
      PlacesSize(info, rest, places');
    } else {
      assert ids == {};
    }
  }

  function Below(k: nat): (r: set<int>)
    ensures |r| == k && forall i :: i in r <==> 0 <= i < k
  {
    if k == 0 then {} else Below(k - 1) + {k - 1}
  }

  lemma SubsetFills(a: set<int>, b: set<int>)
    requires a <= b && |a| == |b|
    ensures a == b
  {
    assert b == a + (b - a);
  }

  /** If every address has its own place among as many places as there are addresses, no place is left over. */
  lemma PlacesFilled(info: map<Id, Info>, random: seq<Id>)
    requires |random| == |info|
    requires forall n :: n in info ==> 0 <= info[n].randomPos < |random| && random[info[n].randomPos] == n
    ensures RandomOk(info, random)
  {
    var places := set n | n in info.Keys :: info[n].randomPos;
    PlacesSize(info, info.Keys, places);
    SubsetFills(places, Below(|random|));
    forall k | 0 <= k < |random| ensures random[k] in info && info[random[k]].randomPos == k {
      assert k in Below(|random|);
      var n :| n in info && info[n].randomPos == k;
    }
  }

  /** Together with the two facts it does not look at, that network addresses lead only to entries and ids
      are below the counter, the check says everything that the operations rely on. */
  lemma PassingIsInv(h: Hashing, s: Tables)
    requires Consistent(h, s) && AddrOk(s.info, s.addr) && IdsOk(s.info, s.nIdCount)
    ensures Inv(h, s, {}, 0) && TimesOk(s.info)
  {
    KeysSize(s.info);
    forall n | n in s.info
      ensures 0 <= s.info[n].randomPos < |s.random| && s.random[s.info[n].randomPos] == n
      ensures s.info[n].lastTry >= 0 && s.info[n].lastSuccess >= 0 && (s.info[n].inTried ==> s.info[n].lastSuccess > 0)
    {
      assert EntryPasses(s, n);
    }
    PlacesFilled(s.info, s.random);
    PassingRefsOk(h, s);
  }

  lemma PassingRefsOk(h: Hashing, s: Tables)
    requires Consistent(h, s)
    ensures RefsOk(s.info, s.news, {})
  {
    hide TriedOk, CountsOk, NewSlot;
    forall n | n in s.info
      ensures s.info[n].refCount == |Slots(s.news, n)| && s.info[n].refCount <= NEW_BUCKETS_PER_ADDRESS
      ensures !s.info[n].inTried ==> s.info[n].refCount > 0
    {
      assert EntryPasses(s, n);
      if s.info[n].inTried {
        assert Slots(s.news, n) == {};
      }
    }
  }
}
