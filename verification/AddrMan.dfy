/** The address manager (src/addrman.cpp): addresses move between a table of new and a table of tried slots,
    are found by network address, and are kept in a random order. */
module AddrMan {
  import opened Base
  import opened AddrTables
  import AddrCheck

  const GETADDR_MAX_PCT: nat := 23
  const GETADDR_MAX: nat := 2500
  const HOUR: nat := 60 * 60
  const DAY: nat := 24 * HOUR

  datatype Address = Address(service: Service, services: set<nat>, time: nat)

  /** Storing into an unsigned 32-bit field. */
  function U32(x: int): nat {
    x % 0x1_0000_0000
  }

  function Max(a: int, b: int): int {
    if a < b then b else a
  }

  predicate IsTerrible(i: Info, now: int) {
    && !(i.lastTry != 0 && i.lastTry >= now - 60)
    && (|| i.time > now + 10 * 60
        || i.time == 0 || now - i.time > 30 * DAY
        || (i.lastSuccess == 0 && i.attempts >= 3)
        || (now - i.lastSuccess > 7 * DAY && i.attempts >= 10))
  }

  /** Reasons to keep an address, on its fields: it was tried in the last minute; or it was last seen within 30 days
      and not more than 10 minutes ahead of the clock, it has answered once or has been tried at most twice, and it
      has answered within 7 days or has been tried at most 9 times. */
  predicate TriedJustNow(i: Info, now: int) {
    i.lastTry != 0 && now <= i.lastTry + 60
  }

  predicate SeenLately(i: Info, now: int) {
    i.time != 0 && now <= i.time + 2_592_000 && i.time <= now + 600
  }

  predicate NotGivenUp(i: Info, now: int) {
    && (i.lastSuccess != 0 || i.attempts < 3)
    && (now <= i.lastSuccess + 604_800 || i.attempts < 10)
  }

  predicate WorthKeeping(i: Info, now: int) {
    TriedJustNow(i, now) || (SeenLately(i, now) && NotGivenUp(i, now))
  }

  /** An address is terrible exactly when none of this holds. */
  lemma TerribleIff(i: Info, now: int)
    ensures IsTerrible(i, now) <==> !WorthKeeping(i, now)
  {
  }

  class AddrManager {
    const h: Hashing
    var nKey: nat
    var nIdCount: Id
    var mapInfo: map<Id, Info>
    var mapAddr: map<NetAddr, Id>
    var vRandom: seq<Id>
    var nTried: int
    var vvTried: map<Slot, Id>
    var nNew: int
    var vvNew: map<Slot, Id>

    ghost function Now(): Tables
      reads this
    {
      Tables(nKey, mapInfo, mapAddr, vRandom, vvTried, vvNew, nTried, nNew, nIdCount)
    }

    ghost predicate Ok()
      reads this
    {
      Inv(h, Now(), {}, 0)
    }

    constructor (h: Hashing, key: nat)
      requires key != 0
      ensures Ok() && TimesOk(mapInfo) && this.h == h && mapInfo == map[]
    {
      this.h := h;
      nKey, nIdCount, nTried, nNew := key, 0, 0, 0;
      mapInfo, mapAddr, vRandom, vvTried, vvNew := map[], map[], [], map[], map[];
    }

    function Find(a: NetAddr): Option<Id>
      reads this
    {
      if a in mapAddr && mapAddr[a] in mapInfo then Some(mapAddr[a]) else None
    }

    /** The id under which exactly this service is known. */
    function Known(a: Service): Option<Id>
      reads this
    {
      if a.ip in mapAddr && mapAddr[a.ip] in mapInfo && mapInfo[mapAddr[a.ip]].service == a then Some(mapAddr[a.ip]) else None
    }

    method Create(a: Address, source: NetAddr) returns (n: Id)
      requires Ok() && a.service.ip !in mapAddr
      modifies this`mapInfo, this`mapAddr, this`vRandom, this`nIdCount
      ensures Inv(h, Now(), {n}, 1) && n !in old(mapInfo)
      ensures mapInfo == old(mapInfo)[n := Info(a.service, a.services, a.time, source, 0, 0, 0, 0, false, |old(vRandom)|)]
      ensures mapAddr == old(mapAddr)[a.service.ip := n]
    {
      hide RandomOk, AddrOk, IdsOk, TriedOk, NewOk, RefsOk, CountsOk;
      n := nIdCount;
      var i := Info(a.service, a.services, a.time, source, 0, 0, 0, 0, false, |vRandom|);
      CreateKeepsInv(h, Now(), i);
      nIdCount := nIdCount + 1;
      mapInfo := mapInfo[n := i];
      mapAddr := mapAddr[a.service.ip := n];
      vRandom := vRandom + [n];
    }

    method SwapRandom(i: nat, j: nat, ghost limbo: set<Id>, ghost uncounted: int)
      requires Inv(h, Now(), limbo, uncounted) && i < |vRandom| && j < |vRandom|
      modifies this`mapInfo, this`vRandom
      ensures Inv(h, Now(), limbo, uncounted) && OnlyPositions(old(mapInfo), mapInfo)
      ensures vRandom == Swapped(old(vRandom), i, j)
    {
      hide Inv, OnlyPositions;
      SwapKeepsInv(h, Now(), i, j, limbo, uncounted);
      if i == j {
        return;
      }
      var n1, n2 := vRandom[i], vRandom[j];
      mapInfo := mapInfo[n1 := mapInfo[n1].(randomPos := j)];
      mapInfo := mapInfo[n2 := mapInfo[n2].(randomPos := i)];
      vRandom := vRandom[i := n2][j := n1];
    }

    method Delete(n: Id, ghost limbo: set<Id>, ghost uncounted: int)
      requires Inv(h, Now(), limbo, uncounted) && n in mapInfo && !mapInfo[n].inTried && mapInfo[n].refCount == 0
      modifies this`mapInfo, this`vRandom, this`mapAddr, this`nNew
      ensures Inv(h, Now(), limbo - {n}, uncounted) && OnlyPositions(old(mapInfo) - {n}, mapInfo)
      ensures mapAddr == old(mapAddr) - {old(mapInfo)[n].service.ip}
    {
      hide RandomOk, AddrOk, IdsOk, TriedOk, NewOk, RefsOk, CountsOk, OnlyPositions;
      PositionKnown(mapInfo, vRandom, n);
      SwapRandom(mapInfo[n].randomPos, |vRandom| - 1, limbo, uncounted);
      SwappedLast(old(mapInfo), old(vRandom), mapInfo, vRandom, n);
      DeleteLastKeepsInv(h, Now(), n, limbo, uncounted);
      vRandom := vRandom[..|vRandom| - 1];
      mapAddr := mapAddr - {mapInfo[n].service.ip};
      mapInfo := mapInfo - {n};
      nNew := nNew - 1;
    }

    /** Empties a slot of the new table. Only the address in it is affected: it loses a reference, and is
        forgotten if that was its last. */
    method ClearNew(l: Slot, ghost limbo: set<Id>, ghost uncounted: int)
      requires Inv(h, Now(), limbo, uncounted) && (l in vvNew ==> vvNew[l] !in limbo)
      modifies this`mapInfo, this`vRandom, this`mapAddr, this`nNew, this`vvNew
      ensures Inv(h, Now(), limbo, uncounted) && vvNew == old(vvNew) - {l}
      ensures ClearedInfo(old(vvNew), old(mapInfo), l, mapInfo) && Kept(old(mapInfo), mapInfo)
    {
      hide RandomOk, AddrOk, IdsOk, TriedOk, RefsOk, CountsOk, NewOk;
      if l in vvNew {
        DropSlotKeepsInv(h, Now(), l, limbo, uncounted);
        var n := vvNew[l];
        mapInfo := mapInfo[n := mapInfo[n].(refCount := mapInfo[n].refCount - 1)];
        vvNew := vvNew - {l};
        assert limbo + {n} - {n} == limbo;
        if mapInfo[n].refCount == 0 {
          LimboIsNew(h, Now(), n, limbo + {n}, uncounted);
          Delete(n, limbo + {n}, uncounted);
        } else {
          LimboLeft(h, Now(), n, limbo + {n}, uncounted);
        }
      } else {
        assert vvNew - {l} == vvNew;
      }
    }

    /** Takes an address out of all its slots of the new table. */
    method ClearReferences(n: Id)
      requires Ok() && n in mapInfo && !mapInfo[n].inTried
      modifies this`mapInfo, this`vvNew
      ensures Inv(h, Now(), {n}, 0) && n in mapInfo && mapInfo[n].refCount == 0 && Slots(vvNew, n) == {}
      ensures mapInfo == old(mapInfo)[n := old(mapInfo)[n].(refCount := 0)] && vvNew == Without(old(vvNew), n)
    {
      hide RandomOk, AddrOk, IdsOk, TriedOk, RefsOk, CountsOk, NewOk, Slots, Without;
      LimboEntered(h, Now(), n, {}, 0);
      assert {} + {n} == {n};
      var bucket: nat := 0;
      while bucket < NEW_BUCKET_COUNT
        invariant bucket <= NEW_BUCKET_COUNT
        invariant Inv(h, Now(), {n}, 0) && n in mapInfo
        invariant mapInfo == old(mapInfo)[n := old(mapInfo)[n].(refCount := mapInfo[n].refCount)]
        invariant forall l :: l in Slots(vvNew, n) ==> l.bucket >= bucket
        invariant Without(vvNew, n) == Without(old(vvNew), n)
      {
        SlotsOfAddress(h, Now(), n, bucket);
        var l := Slot(bucket, BucketPosition(h, nKey, true, bucket, mapInfo[n].service));
        SlotsMember(vvNew, n, l);
        if l in vvNew && vvNew[l] == n {
          DropSlotKeepsInv(h, Now(), l, {n}, 0);
          SlotsRemoved(vvNew, l, n);
          WithoutMore(vvNew, l, n);
          assert {n} + {n} == {n};
          vvNew := vvNew - {l};
          mapInfo := mapInfo[n := mapInfo[n].(refCount := mapInfo[n].refCount - 1)];
        }
        bucket := bucket + 1;
      }
      NoSlotsLeft(h, Now(), n);
      WithoutNone(vvNew, n);
    }

    /** Moves an address from the new table to the tried table. Whatever is in its slot there goes back to the
        new table, into the slot of its own source. */
    method MakeTried(n: Id)
      requires Ok() && n in mapInfo && !mapInfo[n].inTried
      modifies this`mapInfo, this`vRandom, this`mapAddr, this`nNew, this`vvNew, this`nTried, this`vvTried
      ensures Ok() && vvTried == old(vvTried)[TriedSlot(h, nKey, old(mapInfo)[n].service) := n]
      ensures n in mapInfo && SameEntry(old(mapInfo)[n].(refCount := 0, inTried := true), mapInfo[n])
      ensures Kept(Marked(old(mapInfo), n, true), mapInfo)
      ensures vvNew == NewAfterTry(h, old(Now()), n)
    {
      hide RandomOk, AddrOk, IdsOk, TriedOk, RefsOk, CountsOk, NewOk, Slots, TriedSlot, NewSlot, Without, Kept;
      ClearReferences(n);
      nNew := nNew - 1;
      Recount(h, Now().(nNew := nNew + 1), {n}, 0, -1);
      var l := TriedSlot(h, nKey, mapInfo[n].service);
      KeptSelf(mapInfo);
      if l in vvTried {
        Evict(l, n);
      }
      KeptTried(old(mapInfo), mapInfo, n);
      TryKeepsInv(h, Now(), n, {n}, 1);
      assert {n} - {n} == {};
      vvTried := vvTried[l := n];
      nTried := nTried + 1;
      mapInfo := mapInfo[n := mapInfo[n].(inTried := true)];
    }

    method Evict(l: Slot, n: Id)
      requires Inv(h, Now(), {n}, 1) && l in vvTried && n in mapInfo && mapInfo[n].refCount == 0
      modifies this`mapInfo, this`vRandom, this`mapAddr, this`nNew, this`vvNew, this`nTried, this`vvTried
      ensures Inv(h, Now(), {n}, 1) && vvTried == old(vvTried) - {l}
      ensures n in mapInfo && SameEntry(old(mapInfo)[n], mapInfo[n]) && Kept(old(mapInfo), mapInfo)
      ensures var m := old(vvTried)[l];
        && m in old(mapInfo) && m in mapInfo && SameEntry(old(mapInfo)[m].(refCount := 1, inTried := false), mapInfo[m])
        && vvNew == old(vvNew)[NewSlot(h, nKey, mapInfo[m].service, NewBucket(h, nKey, mapInfo[m].service, mapInfo[m].source)) := m]
    {
      hide RandomOk, AddrOk, IdsOk, TriedOk, RefsOk, CountsOk, NewOk, Slots, TriedSlot, NewSlot;
      hide Kept, ClearedInfo, OnlyPositions;
      var m := vvTried[l];
      LimboIsNew(h, Now(), n, {n}, 1);
      UntryKeepsInv(h, Now(), l, {n}, 1);
      mapInfo := mapInfo[m := mapInfo[m].(inTried := false)];
      vvTried := vvTried - {l};
      nTried := nTried - 1;
      ReturnToNew(m, n);
      KeptAll(old(mapInfo), m, false, mapInfo);
    }

    /** Puts an evicted address into the slot of its source. */
    method ReturnToNew(m: Id, n: Id)
      requires m != n && Inv(h, Now(), {n} + {m}, 2) && n in mapInfo && m in mapInfo
      requires mapInfo[n].refCount == 0 && mapInfo[m].refCount == 0
      modifies this`mapInfo, this`vRandom, this`mapAddr, this`nNew, this`vvNew
      ensures Inv(h, Now(), {n}, 1) && n in mapInfo && m in mapInfo && Kept(old(mapInfo), mapInfo)
      ensures SameEntry(old(mapInfo)[n], mapInfo[n]) && SameEntry(old(mapInfo)[m].(refCount := 1), mapInfo[m])
      ensures vvNew == old(vvNew)[NewSlot(h, nKey, mapInfo[m].service, NewBucket(h, nKey, mapInfo[m].service, mapInfo[m].source)) := m]
    {
      hide RandomOk, AddrOk, IdsOk, TriedOk, RefsOk, CountsOk, NewOk, Slots, TriedSlot, NewSlot;
      hide Kept, ClearedInfo, OnlyPositions;
      var bucket := NewBucket(h, nKey, mapInfo[m].service, mapInfo[m].source);
      var u := NewSlot(h, nKey, mapInfo[m].service, bucket);
      NoSlotNoRef(h, Now(), n, {n} + {m}, 2, u);
      NoSlotNoRef(h, Now(), m, {n} + {m}, 2, u);
      ghost var before := mapInfo;
      ClearNew(u, {n} + {m}, 2);
      ClearedKeeps(old(vvNew), before, u, mapInfo, n);
      ClearedKeeps(old(vvNew), before, u, mapInfo, m);
      LimboIsNew(h, Now(), m, {n} + {m}, 2);
      PutSlotKeepsInv(h, Now(), m, bucket, {n} + {m}, 2);
      assert {n} + {m} - {m} == {n};
      KeptCount(before, mapInfo, m);
      mapInfo := mapInfo[m := mapInfo[m].(refCount := 1)];
      vvNew := vvNew[u := m];
      nNew := nNew + 1;
      Recount(h, Now().(nNew := nNew - 1), {n}, 2, 1);
    }

    /** Marks an address as good. A known service ends up in its slot of the tried table, whatever was drawn,
        and no other slot of that table changes. */
    method Good(a: Service, time: int, rnd: nat)
      requires Ok()
      modifies this
      ensures Ok() && nKey == old(nKey) && (TimesOk(old(mapInfo)) && time > 0 ==> TimesOk(mapInfo))
      ensures old(Known(a)).None? ==> Now() == old(Now())
      ensures old(Known(a)).Some? ==>
                && Known(a) == old(Known(a))
                && vvTried == old(vvTried)[TriedSlot(h, nKey, a) := Known(a).value]
                && SameEntry(old(mapInfo[Known(a).value]).(lastSuccess := time, lastTry := time, attempts := 0, inTried := true, refCount := 0),
                             mapInfo[Known(a).value])
                && OthersKept(old(mapInfo), mapInfo, Known(a).value)
                && vvNew == (if old(mapInfo[Known(a).value].inTried) then old(vvNew) else NewAfterTry(h, old(Now()), Known(a).value))
    {
      hide RandomOk, AddrOk, IdsOk, TriedOk, RefsOk, CountsOk, NewOk, Slots, TriedSlot, NewSlot, NewAfterTry, Kept, OthersKept;
      var found := Find(a.ip);
      if found.None? || mapInfo[found.value].service != a {
        return;
      }
      var n := found.value;
      var i := mapInfo[n].(lastSuccess := time, lastTry := time, attempts := 0);
      StatsKeepInv(h, Now(), n, i, {}, 0);
      StatsKeepNew(h, Now(), n, i);
      mapInfo := mapInfo[n := i];
      ghost var before := mapInfo;
      OneChanges(old(mapInfo), mapInfo, n);
      if i.inTried {
        InOwnSlot(h, Now(), n);
        TriedHasNoRefs(h, Now(), n);
        return;
      }
      var bucket := FindBucket(n, rnd);
      assert bucket.Some?;
      MakeTried(n);
      FoundByAddress(h, Now(), n);
      MarkedOthersKept(old(mapInfo), before, mapInfo, n);
      if TimesOk(old(mapInfo)) && time > 0 {
        KeptTimes(Marked(before, n, true), mapInfo);
      }
    }

    /** Looks for a slot holding the address, starting at a random bucket: there always is one. */
    method FindBucket(n: Id, rnd: nat) returns (bucket: Option<nat>)
      requires Ok() && n in mapInfo && !mapInfo[n].inTried
      ensures bucket.Some? && NewSlot(h, nKey, mapInfo[n].service, bucket.value) in Slots(vvNew, n)
    {
      hide RandomOk, AddrOk, IdsOk, TriedOk, RefsOk, CountsOk, NewOk, Slots;
      bucket := None;
      var k: nat := 0;
      var start := rnd % NEW_BUCKET_COUNT;
      while k < NEW_BUCKET_COUNT
        invariant k <= NEW_BUCKET_COUNT
        invariant forall j :: 0 <= j < k ==>
                    NewSlot(h, nKey, mapInfo[n].service, BucketFrom(start, j)) !in Slots(vvNew, n)
      {
        var b := BucketFrom(start, k);
        var l := NewSlot(h, nKey, mapInfo[n].service, b);
        SlotsMember(vvNew, n, l);
        if l in vvNew && vvNew[l] == n {
          return Some(b);
        }
        k := k + 1;
      }
      var l := SomeSlot(h, Now(), n);
      var j := AllVisited(start, l.bucket);
      assert false;
    }

    /** What an announcement adds to an address that is known already; whether a further reference is due. */
    method Refresh(n: Id, a: Address, penalty: int, now: int, rnd: nat) returns (more: bool)
      requires Ok() && n in mapInfo
      modifies this`mapInfo
      ensures Ok() && n in mapInfo && SameLinks(old(mapInfo)[n], mapInfo[n])
      ensures mapInfo == old(mapInfo)[n := old(mapInfo)[n].(time := mapInfo[n].time, services := mapInfo[n].services)]
      ensures mapInfo[n].services == old(mapInfo)[n].services + a.services
      ensures mapInfo[n].time == RefreshedTime(old(mapInfo)[n], a, penalty, now)
      ensures more <==> ReferenceDue(mapInfo[n], a, rnd)
    {
      hide RandomOk, AddrOk, IdsOk, TriedOk, CountsOk, NewOk, Slots, TriedSlot, NewSlot, Doubled;
      var i := mapInfo[n];
      var interval := if now - a.time < DAY then HOUR else DAY;
      if a.time != 0 && (i.time == 0 || i.time < a.time - interval - penalty) {
        i := i.(time := U32(Max(0, a.time - penalty)));
      }
      i := i.(services := i.services + a.services);
      StatsKeepInv(h, Now(), n, i, {}, 0);
      mapInfo := mapInfo[n := i];
      if a.time == 0 || (i.time != 0 && a.time <= i.time) || i.inTried || i.refCount == NEW_BUCKETS_PER_ADDRESS {
        return false;
      }
      var factor := Factor(i.refCount);
      more := !(factor > 1 && rnd % factor != 0);
    }

    /** Gives an address a reference in the bucket of the source, or drops it if it has none and gets none. */
    method Insert(n: Id, source: NetAddr, now: int)
      requires Inv(h, Now(), {n}, 0) && n in mapInfo && mapInfo[n].refCount < NEW_BUCKETS_PER_ADDRESS
      modifies this`mapInfo, this`vRandom, this`mapAddr, this`nNew, this`vvNew
      ensures Ok() && Inserted(h, old(Now()), Now(), n, source, now)
    {
      hide RandomOk, AddrOk, IdsOk, TriedOk, RefsOk, CountsOk, NewOk, Slots, TriedSlot, NewSlot, IsTerrible, WorthKeeping;
      hide Kept, ClearedInfo, OnlyPositions;
      LimboIsNew(h, Now(), n, {n}, 0);
      assert {n} - {n} == {};
      KeptSelf(mapInfo);
      var bucket := NewBucket(h, nKey, mapInfo[n].service, source);
      var l := NewSlot(h, nKey, mapInfo[n].service, bucket);
      NoSlotNoRefLater(h, Now(), n, l);
      if l in vvNew && vvNew[l] == n {
        assert vvNew[l := n] == vvNew;
        LimboLeft(h, Now(), n, {n}, 0);
        return;
      }
      var insert := l !in vvNew;
      if l in vvNew {
        OccupantKnown(h, Now(), l, {n}, 0);
        var existing := mapInfo[vvNew[l]];
        TerribleIff(existing, now);
        if IsTerrible(existing, now) || (existing.refCount > 1 && mapInfo[n].refCount == 0) {
          insert := true;
        }
      }
      if insert {
        ghost var before := mapInfo;
        ClearNew(l, {n}, 0);
        ClearedKeeps(old(vvNew), before, l, mapInfo, n);
        PutSlotKeepsInv(h, Now(), n, bucket, {n}, 0);
        KeptCount(before, mapInfo, n);
        mapInfo := mapInfo[n := mapInfo[n].(refCount := mapInfo[n].refCount + 1)];
        vvNew := vvNew[l := n];
      } else if mapInfo[n].refCount == 0 {
        Delete(n, {n}, 0);
        DroppedKept(old(mapInfo), n, mapInfo);
      } else {
        LimboLeft(h, Now(), n, {n}, 0);
      }
    }

    /** Takes up an unknown address, which has no slot yet, with its time less the penalty. */
    method Introduce(a: Address, source: NetAddr, penalty: int) returns (n: Id)
      requires Ok() && a.service.ip !in mapAddr
      modifies this`mapInfo, this`mapAddr, this`vRandom, this`nIdCount, this`nNew
      ensures Inv(h, Now(), {n}, 0) && n !in old(mapInfo)
      ensures mapInfo == old(mapInfo)[n := Info(a.service, a.services, U32(Max(0, a.time - penalty)), source, 0, 0, 0, 0, false, |old(vRandom)|)]
      ensures mapAddr == old(mapAddr)[a.service.ip := n]
    {
      hide RandomOk, AddrOk, IdsOk, TriedOk, RefsOk, CountsOk, NewOk;
      n := Create(a, source);
      var i := mapInfo[n].(time := U32(Max(0, mapInfo[n].time - penalty)));
      StatsKeepInv(h, Now(), n, i, {n}, 1);
      mapInfo := mapInfo[n := i];
      nNew := nNew + 1;
      Recount(h, Now().(nNew := nNew - 1), {n}, 1, 1);
    }

    /** Announces an address. It returns true exactly if the address was unknown and can be routed to; at most
        one slot of the new table changes, to hold that address, and the tried table is never touched. */
    method Add(a: Address, source: NetAddr, penalty: int, now: int, rnd: nat) returns (isNew: bool)
      requires Ok()
      modifies this
      ensures Ok() && nKey == old(nKey) && (TimesOk(old(mapInfo)) ==> TimesOk(mapInfo))
      ensures isNew <==> h.routable(a.service.ip) && a.service.ip !in old(mapAddr)
      ensures vvTried == old(vvTried) && nTried == old(nTried)
      ensures !h.routable(a.service.ip) ==> Now() == old(Now())
      ensures isNew ==> Introduced(h, old(Now()), Now(), a, source, penalty, now)
      ensures h.routable(a.service.ip) && !isNew ==> Refreshed(h, old(Now()), Now(), a, source, penalty, now, rnd)
    {
      hide RandomOk, AddrOk, IdsOk, TriedOk, RefsOk, CountsOk, NewOk, Slots, TriedSlot, NewSlot, Kept, OthersKept;
      hide Yields, ReferenceDue, RefreshedTime, SourceSlot, Inserted, Introduced;
      if !h.routable(a.service.ip) {
        return false;
      }
      var found := Find(a.service.ip);
      FindIsKnown(h, Now(), a.service.ip);
      var n: Id;
      if found.Some? {
        n := found.value;
        var more := Refresh(n, a, penalty, now, rnd);
        OneChanges(old(mapInfo), mapInfo, n);
        DueIgnoresServices(old(mapInfo)[n].(time := mapInfo[n].time), mapInfo[n].services, a, rnd);
        if !more {
          return false;
        }
        isNew := false;
        DueIsReferenced(h, Now(), n, a, rnd);
        LimboEntered(h, Now(), n, {}, 0);
        assert {} + {n} == {n};
      } else {
        n := Introduce(a, source, penalty);
        isNew := true;
      }
      assert TimesOk(old(mapInfo)) ==> TimesOk(mapInfo);
      ghost var before := Now();
      Insert(n, source, now);
      InsertedTimes(h, before, Now(), n, source, now);
      if isNew {
        IntroducedBy(h, old(Now()), before, Now(), n, a, source, penalty, now);
      } else {
        RefreshedBy(h, old(Now()), before, Now(), n, a, source, penalty, now, rnd);
      }
    }

    method Attempt(a: Service, time: int)
      requires Ok()
      modifies this`mapInfo
      ensures Ok() && (TimesOk(old(mapInfo)) && time >= 0 ==> TimesOk(mapInfo))
      ensures mapInfo == match old(Known(a))
                case None => old(mapInfo)
                case Some(n) => old(mapInfo)[n := old(mapInfo)[n].(lastTry := time, attempts := old(mapInfo)[n].attempts + 1)]
    {
      hide RandomOk, AddrOk, IdsOk, TriedOk, RefsOk, CountsOk, NewOk;
      var found := Find(a.ip);
      if found.None? || mapInfo[found.value].service != a {
        return;
      }
      var n := found.value;
      var i := mapInfo[n].(lastTry := time, attempts := mapInfo[n].attempts + 1);
      StatsKeepInv(h, Now(), n, i, {}, 0);
      mapInfo := mapInfo[n := i];
    }

    method Connected(a: Service, time: int)
      requires Ok()
      modifies this`mapInfo
      ensures Ok() && (TimesOk(old(mapInfo)) ==> TimesOk(mapInfo))
      ensures old(Known(a)).None? ==> mapInfo == old(mapInfo)
      ensures old(Known(a)).Some? ==> SeenAgain(old(mapInfo), mapInfo, old(Known(a)).value, time)
    {
      hide RandomOk, AddrOk, IdsOk, TriedOk, RefsOk, CountsOk, NewOk;
      var found := Find(a.ip);
      if found.None? || mapInfo[found.value].service != a {
        return;
      }
      var n := found.value;
      if time - mapInfo[n].time > 20 * 60 {
        var i := mapInfo[n].(time := U32(time));
        StatsKeepInv(h, Now(), n, i, {}, 0);
        mapInfo := mapInfo[n := i];
      }
    }

    /** Offers addresses in random order: known ones that are worth keeping, no two with one network address,
        at most 23 per cent and at most 2500; and all of them if there are fewer. */
    method GetAddr(rand: nat -> nat, now: int) returns (out: seq<Address>)
      requires Ok()
      modifies this`mapInfo, this`vRandom
      ensures Ok() && OnlyPositions(old(mapInfo), mapInfo)
      ensures |vRandom| == |old(vRandom)| && |out| <= 2500 && 100 * |out| <= 23 * |vRandom|
      ensures GoodOffer(Now(), now, out)
      ensures |out| < 2500 && 100 * (|out| + 1) <= 23 * |vRandom| ==> FullOffer(Now(), now, out)
    {
      hide GoodOffer, FullOffer, RandomOk, AddrOk, IdsOk, TriedOk, RefsOk, CountsOk, NewOk, IsTerrible, OnlyPositions, Picked;
      out := [];
      PositionsSelf(mapInfo);
      PickedNone(mapInfo, vRandom, now);
      var n: nat := 0;
      while n < |vRandom| && |out| < OfferLimit(|vRandom|)
        invariant n <= |vRandom| == |old(vRandom)| && |out| <= OfferLimit(|vRandom|)
        invariant Ok() && OnlyPositions(old(mapInfo), mapInfo)
        invariant Picked(mapInfo, vRandom, n, now, out)
      {
        ghost var before := mapInfo;
        out := Draw(n, rand(n) % (|vRandom| - n) + n, now, out);
        PositionsTransitive(old(mapInfo), before, mapInfo);
        n := n + 1;
      }
      PickedOffers(h, Now(), n, now, out);
    }

    /** Puts the address at place j next in order, and offers it unless it is terrible. */
    method Draw(n: nat, j: nat, now: int, out: seq<Address>) returns (out': seq<Address>)
      requires Ok() && n <= j < |vRandom| && Picked(mapInfo, vRandom, n, now, out)
      modifies this`mapInfo, this`vRandom
      ensures Ok() && OnlyPositions(old(mapInfo), mapInfo) && |vRandom| == |old(vRandom)|
      ensures Picked(mapInfo, vRandom, n + 1, now, out') && |out| <= |out'| <= |out| + 1
    {
      hide RandomOk, AddrOk, IdsOk, TriedOk, RefsOk, CountsOk, NewOk, IsTerrible, OnlyPositions, Picked;
      SwapRandom(n, j, {}, 0);
      PickedSwap(old(mapInfo), old(vRandom), mapInfo, vRandom, n, j, now, out);
      InOrder(h, Now(), n);
      PickedNext(mapInfo, vRandom, n, now, out);
      var i := mapInfo[vRandom[n]];
      out' := if IsTerrible(i, now) then out else out + [AddressOf(i)];
    }

    method Apply(op: Op)
      requires Ok()
      modifies this
      ensures Ok() && (TimesOk(old(mapInfo)) && op.Timely() ==> TimesOk(mapInfo))
    {
      hide Inv, TimesOk, OnlyPositions, Kept;
      match op {
        case Announce(a, source, penalty, now, rnd) =>
          var _ := Add(a, source, penalty, now, rnd);
        case MarkGood(a, time, rnd) => Good(a, time, rnd);
        case MarkAttempt(a, time) => Attempt(a, time);
        case MarkConnected(a, time) => Connected(a, time);
        case Ask(rand, now) =>
          ghost var before := mapInfo;
          var _ := GetAddr(rand, now);
          PositionsTimes(before, mapInfo);
      }
    }

    /** The consistency check always passes between operations. */
    method Check() returns (code: int)
      requires Ok() && TimesOk(mapInfo)
      ensures code == 0
    {
      hide Inv, TimesOk, AddrCheck.Consistent, AddrCheck.InBounds;
      var s := Tables(nKey, mapInfo, mapAddr, vRandom, vvTried, vvNew, nTried, nNew, nIdCount);
      AddrCheck.InvPasses(h, s);
      code := AddrCheck.Check(h, s);
    }

    /** Whatever is done to an empty manager, and whatever is drawn: everything stays consistent. */
    method Run(ops: seq<Op>)
      requires Ok()
      modifies this
      ensures Ok() && (TimesOk(old(mapInfo)) && (forall i :: 0 <= i < |ops| ==> ops[i].Timely()) ==> TimesOk(mapInfo))
    {
      hide Inv, TimesOk;
      var k := 0;
      while k < |ops|
        invariant 0 <= k <= |ops| && Ok()
        invariant TimesOk(old(mapInfo)) && (forall i :: 0 <= i < |ops| ==> ops[i].Timely()) ==> TimesOk(mapInfo)
      {
        Apply(ops[k]);
        k := k + 1;
      }
    }
  }

  /** The operations with everything they draw or read from the clock. */
  datatype Op =
    | Announce(a: Address, source: NetAddr, penalty: int, now: int, rnd: nat)
    | MarkGood(service: Service, time: int, rnd: nat)
    | MarkAttempt(service: Service, time: int)
    | MarkConnected(service: Service, time: int)
    | Ask(rand: nat -> nat, now: int)
  {
    predicate Timely() {
      (MarkGood? ==> time > 0) && (MarkAttempt? ==> time >= 0)
    }
  }

  /** Only the time of entry n changes, and only if it is more than 20 minutes old; it never goes back. */
  ghost predicate SeenAgain(a: map<Id, Info>, b: map<Id, Info>, n: Id, time: int) {
    && n in a && n in b && b == a[n := a[n].(time := b[n].time)]
    && (0 <= time < 0x1_0000_0000 ==> a[n].time <= b[n].time && time <= b[n].time + 20 * 60)
    && (time - a[n].time <= 1200 ==> b[n].time == a[n].time)
    && (1200 < time - a[n].time && time < 0x1_0000_0000 ==> b[n].time == time)
  }

  /** Exchanging two places of the random order, also a place with itself. */
  lemma SwapKeepsInv(h: Hashing, s: Tables, i: nat, j: nat, limbo: set<Id>, uncounted: int)
    requires Inv(h, s, limbo, uncounted) && i < |s.random| && j < |s.random|
    ensures s.random[i] in s.info && s.random[j] in s.info
    ensures i == j ==> OnlyPositions(s.info, s.info) && Swapped(s.random, i, j) == s.random
    ensures i != j ==>
      var info' := Moved(Moved(s.info, s.random[i], j), s.random[j], i);
      OnlyPositions(s.info, info') && Inv(h, s.(info := info', random := Swapped(s.random, i, j)), limbo, uncounted)
  {
    hide AddrOk, IdsOk, TriedOk, NewOk, RefsOk, CountsOk;
    assert s.random[i] in s.info && s.random[j] in s.info;
    if i == j {
      PositionsSelf(s.info);
    } else {
      hide RandomOk, OnlyPositions;
      SwapKeepsRandom(s.info, s.random, i, j);
      var info' := Moved(Moved(s.info, s.random[i], j), s.random[j], i);
      PositionsKeepInv(h, s, s.(info := info', random := Swapped(s.random, i, j)), limbo, uncounted);
    }
  }

  lemma PositionsTimes(a: map<Id, Info>, b: map<Id, Info>)
    requires OnlyPositions(a, b)
    ensures TimesOk(a) ==> TimesOk(b)
  {
    if TimesOk(a) {
      forall n | n in b ensures b[n].lastTry >= 0 && b[n].lastSuccess >= 0 && (b[n].inTried ==> b[n].lastSuccess > 0) {
        assert n in a && SameEntry(a[n], b[n]);
      }
    }
  }

  /** Whether the slot is free for another address: empty, or its occupant not worth keeping, or known from elsewhere
      too while the newcomer is not. */
  predicate Yields(info: map<Id, Info>, news: map<Slot, Id>, l: Slot, now: int, first: bool) {
    l !in news ||
    (news[l] in info && (!WorthKeeping(info[news[l]], now) || (first && info[news[l]].refCount > 1)))
  }

  /** The time of a known address after it has been announced again. */
  function RefreshedTime(i: Info, a: Address, penalty: int, now: int): nat {
    var interval := if now - a.time < DAY then HOUR else DAY;
    if a.time != 0 && (i.time == 0 || i.time < a.time - interval - penalty) then U32(Max(0, a.time - penalty)) else i.time
  }

  lemma RefreshedTimeGrows(i: Info, a: Address, penalty: int, now: int)
    requires penalty >= 0 && a.time < 0x1_0000_0000
    ensures i.time <= RefreshedTime(i, a, penalty, now) <= Max(i.time, a.time)
  {
  }

  /** In seconds: the time of a known address is set to the announced time less the penalty exactly if that time is
      not null and the known one is, or lies more than an hour and the penalty back; a day, if the announcement is
      itself a day old. */
  lemma RefreshedTimeIs(i: Info, a: Address, penalty: int, now: int)
    requires 0 <= penalty && a.time < 0x1_0000_0000
    ensures RefreshedTime(i, a, penalty, now) ==
            if a.time > 0 && (i.time == 0 || a.time - i.time > penalty + (if now < a.time + 86_400 then 3_600 else 86_400))
            then (if penalty < a.time then a.time - penalty else 0)
            else i.time
  {
  }

  /** A further reference is due to an address that is announced with a later time than known, is not in the tried
      table and has at most 7 references, with odds of one in two to the number of its references. */
  lemma ReferenceDueIff(i: Info, a: Address, rnd: nat)
    requires i.refCount >= 0
    ensures ReferenceDue(i, a, rnd) <==>
            a.time > 0 && (i.time == 0 || i.time < a.time) && !i.inTried && i.refCount <= 7 && rnd % Pow2(i.refCount) == 0
  {
    DoubledIsPow2(i.refCount);
  }

  lemma {:induction false} DoubledIsPow2(n: nat)
    ensures Doubled(n) == Pow2(n)
  {
    if n > 0 {
      DoubledIsPow2(n - 1);
    }
  }

  /** News about a new address with fewer than 8 references, which are twice as hard to get each time. */
  predicate ReferenceDue(i: Info, a: Address, rnd: nat) {
    && a.time != 0 && (i.time == 0 || a.time > i.time)
    && !i.inTried && i.refCount < NEW_BUCKETS_PER_ADDRESS && rnd % Doubled(i.refCount) == 0
  }

  /** What happens to the slot of an address for a source: it is taken if it yields, and an address without any
      reference that does not get it is dropped. */
  ghost predicate Inserted(h: Hashing, s: Tables, s': Tables, n: Id, source: NetAddr, now: int) {
    && n in s.info && Kept(s.info, s'.info) && s'.key == s.key
    && var l, i := SourceSlot(h, s.key, s.info[n].service, source), s.info[n];
    var taken := Yields(s.info, s.news, l, now, i.refCount == 0);
    && s'.news == (if taken then s.news[l := n] else s.news)
    && (n in s'.info <==> taken || i.refCount > 0)
    && (n in s'.info ==> s'.info[n].time == i.time && s'.info[n].services == i.services)
  }

  lemma InsertedTimes(h: Hashing, s: Tables, s': Tables, n: Id, source: NetAddr, now: int)
    requires Inserted(h, s, s', n, source, now)
    ensures TimesOk(s.info) ==> TimesOk(s'.info)
  {
    hide Yields, SourceSlot, Kept;
    if TimesOk(s.info) {
      KeptTimes(s.info, s'.info);
    }
  }

  lemma IntroducedBy(h: Hashing, s: Tables, s1: Tables, s': Tables, n: Id, a: Address, source: NetAddr, penalty: int, now: int)
    requires Inv(h, s, {}, 0) && Inv(h, s1, {n}, 0) && Inv(h, s', {}, 0) && n !in s.info && s1.key == s.key && s1.news == s.news
    requires n in s1.info && s1.info == s.info[n := Info(a.service, a.services, U32(Max(0, a.time - penalty)), source, 0, 0, 0, 0, false, s1.info[n].randomPos)]
    requires Inserted(h, s1, s', n, source, now)
    ensures Introduced(h, s, s', a, source, penalty, now)
  {
    hide RandomOk, AddrOk, IdsOk, TriedOk, RefsOk, CountsOk, NewOk, Slots, Kept, OthersKept, Yields, SourceSlot;
    KnownOccupants(h, s);
    YieldsAfterNew(s.info, s1.info, n, s.news, SourceSlot(h, s.key, a.service, source), now);
    if n in s'.info {
      KeptService(s1.info, s'.info, n);
      KeptEntry(s1.info, s'.info, n);
      OthersKeptTwice(s.info, s1.info, s'.info, n);
      FoundByAddress(h, s', n);
    } else {
      NotFound(h, s1, s', n);
      KeptWithout(s.info, s1.info, s'.info, n);
    }
  }

  lemma KeptWithout(a: map<Id, Info>, a': map<Id, Info>, b: map<Id, Info>, n: Id)
    requires n in a' && a' == a[n := a'[n]] && Kept(a', b) && n !in b
    ensures Kept(a, b)
  {
  }

  lemma RefreshedBy(h: Hashing, s: Tables, s1: Tables, s': Tables, n: Id, a: Address, source: NetAddr, penalty: int, now: int, rnd: nat)
    requires Inv(h, s, {}, 0) && Inv(h, s', {}, 0) && n in s.info && n in s1.info && a.service.ip in s.addr && s.addr[a.service.ip] == n
    requires s1.key == s.key && s1.news == s.news
    requires s1.info == s.info[n := s.info[n].(time := RefreshedTime(s.info[n], a, penalty, now), services := s.info[n].services + a.services)]
    requires ReferenceDue(s.info[n].(time := s1.info[n].time), a, rnd) && s.info[n].refCount > 0
    requires Inserted(h, s1, s', n, source, now) && !s.info[n].inTried
    ensures Refreshed(h, s, s', a, source, penalty, now, rnd)
  {
    hide RandomOk, AddrOk, IdsOk, TriedOk, RefsOk, CountsOk, NewOk, Slots, Kept, OthersKept, Yields, SourceSlot, ReferenceDue, RefreshedTime;
    var l := SourceSlot(h, s.key, s.info[n].service, source);
    YieldsAfterChange(s.info, s1.info, n, s.news, l, now, false);
    KeptService(s1.info, s'.info, n);
    KeptEntry(s1.info, s'.info, n);
    OthersKeptTwice(s.info, s1.info, s'.info, n);
    if l in s.news && s.news[l] == n {
      assert s.news[l := n] == s.news;
    }
  }

  /** What announcing an unknown address does: it becomes known, never tried, exactly if its slot yields. */
  ghost predicate Introduced(h: Hashing, s: Tables, s': Tables, a: Address, source: NetAddr, penalty: int, now: int) {
    var l := SourceSlot(h, s.key, a.service, source);
    && (a.service.ip in s'.addr ==>
          && s'.addr[a.service.ip] in s'.info
          && var i := s'.info[s'.addr[a.service.ip]];
          && i.service == a.service && i.services == a.services && i.source == source && !i.inTried
          && i.time == U32(Max(0, a.time - penalty)) && i.lastTry == 0 && i.lastSuccess == 0 && i.attempts == 0
          && OthersKept(s.info, s'.info, s'.addr[a.service.ip]))
    && (a.service.ip !in s'.addr ==> Kept(s.info, s'.info))
    && (a.service.ip in s'.addr <==> Yields(s.info, s.news, l, now, true))
    && s'.news == (if a.service.ip in s'.addr then s.news[l := s'.addr[a.service.ip]] else s.news)
  }

  /** What announcing a known address does: time and services are refreshed; it gets another slot exactly if a
      reference is due and the slot yields. */
  ghost predicate Refreshed(h: Hashing, s: Tables, s': Tables, a: Address, source: NetAddr, penalty: int, now: int, rnd: nat) {
    && a.service.ip in s.addr
    && var n := s.addr[a.service.ip];
    && n in s.info && n in s'.info
    && s'.info[n].time == RefreshedTime(s.info[n], a, penalty, now)
    && s'.info[n].services == s.info[n].services + a.services
    && s'.info[n] == s.info[n].(time := s'.info[n].time, services := s'.info[n].services, refCount := s'.info[n].refCount,
                                randomPos := s'.info[n].randomPos)
    && OthersKept(s.info, s'.info, n)
    && var l := SourceSlot(h, s.key, s.info[n].service, source);
    s'.news == if ReferenceDue(s.info[n].(time := s'.info[n].time), a, rnd) && Yields(s.info, s.news, l, now, false)
               then s.news[l := n] else s.news
  }

  lemma DueIsReferenced(h: Hashing, s: Tables, n: Id, a: Address, rnd: nat)
    requires Inv(h, s, {}, 0) && n in s.info && ReferenceDue(s.info[n], a, rnd)
    ensures s.info[n].refCount > 0 && !s.info[n].inTried && s.info[n].refCount < NEW_BUCKETS_PER_ADDRESS
  {
  }

  lemma DueIgnoresServices(i: Info, services: set<nat>, a: Address, rnd: nat)
    ensures ReferenceDue(i.(services := services), a, rnd) <==> ReferenceDue(i, a, rnd)
  {
  }

  /** A network address whose entry is gone is not found any more. */
  lemma NotFound(h: Hashing, s: Tables, s': Tables, n: Id)
    requires Inv(h, s, {n}, 0) && Inv(h, s', {}, 0) && Kept(s.info, s'.info) && n in s.info && n !in s'.info
    ensures s.info[n].service.ip !in s'.addr
  {
    hide RandomOk, IdsOk, TriedOk, NewOk, RefsOk, CountsOk;
  }

  lemma YieldsAfterChange(info: map<Id, Info>, info': map<Id, Info>, n: Id, news: map<Slot, Id>, l: Slot, now: int, first: bool)
    requires n in info && n in info' && info' == info[n := info'[n]]
    ensures (l in news && news[l] == n) || (Yields(info, news, l, now, first) <==> Yields(info', news, l, now, first))
  {
  }

  lemma KnownOccupants(h: Hashing, s: Tables)
    requires Inv(h, s, {}, 0)
    ensures forall l :: l in s.news ==> s.news[l] in s.info
  {
  }

  lemma YieldsAfterNew(info: map<Id, Info>, info': map<Id, Info>, n: Id, news: map<Slot, Id>, l: Slot, now: int)
    requires n !in info && n in info' && info' == info[n := info'[n]] && forall k :: k in news ==> news[k] in info
    ensures Yields(info, news, l, now, true) <==> Yields(info', news, l, now, true)
  {
  }

  /** No entry appears, none enters the tried table, and what is known about an address stays. */
  ghost predicate Kept(a: map<Id, Info>, b: map<Id, Info>) {
    forall n :: n in b ==>
      && n in a && (b[n].inTried ==> a[n].inTried)
      && b[n] == a[n].(refCount := b[n].refCount, inTried := b[n].inTried, randomPos := b[n].randomPos)
  }

  function BucketFrom(start: nat, k: nat): nat {
    (k + start) % NEW_BUCKET_COUNT
  }

  lemma AllVisited(start: nat, bucket: nat) returns (k: nat)
    requires start < NEW_BUCKET_COUNT && bucket < NEW_BUCKET_COUNT
    ensures k < NEW_BUCKET_COUNT && BucketFrom(start, k) == bucket
  {
    k := (bucket + NEW_BUCKET_COUNT - start) % NEW_BUCKET_COUNT;
  }

  lemma KeptAll(a: map<Id, Info>, n: Id, inTried: bool, b: map<Id, Info>)
    requires n in a && (inTried ==> a[n].inTried) && Kept(Marked(a, n, inTried), b)
    ensures Kept(a, b)
  {
  }

  lemma KeptTried(a: map<Id, Info>, b: map<Id, Info>, n: Id)
    requires n in a && n in b && Kept(a[n := a[n].(refCount := 0)], b)
    ensures Kept(Marked(a, n, true), b[n := b[n].(inTried := true)])
  {
  }

  lemma KeptCount(a: map<Id, Info>, b: map<Id, Info>, n: Id)
    requires Kept(a, b) && n in b
    ensures forall c :: Kept(a, b[n := b[n].(refCount := c)])
  {
  }

  lemma ClearedKeeps(news: map<Slot, Id>, info: map<Id, Info>, l: Slot, info': map<Id, Info>, n: Id)
    requires ClearedInfo(news, info, l, info') && n in info && (l in news ==> news[l] != n)
    ensures n in info' && SameEntry(info[n], info'[n])
  {
  }

  /** What emptying slot l does to the entries. */
  ghost predicate ClearedInfo(news: map<Slot, Id>, info: map<Id, Info>, l: Slot, info': map<Id, Info>) {
    if l !in news then info' == info
    else
      var n := news[l];
      n in info &&
      OnlyPositions(if info[n].refCount == 1 then info - {n} else Counted(info, n, -1), info')
  }

  lemma PositionKnown(info: map<Id, Info>, random: seq<Id>, n: Id)
    requires RandomOk(info, random) && n in info
    ensures 0 <= info[n].randomPos < |random| && random[info[n].randomPos] == n
  {
  }

  lemma SwappedLast(info: map<Id, Info>, random: seq<Id>, info': map<Id, Info>, random': seq<Id>, n: Id)
    requires RandomOk(info, random) && n in info
    requires RandomOk(info', random') && OnlyPositions(info, info')
    requires random' == Swapped(random, info[n].randomPos, |random| - 1)
    ensures n in info' && SameEntry(info[n], info'[n]) && info'[n].randomPos == |random'| - 1
    ensures OnlyPositions(info - {n}, info' - {n})
  {
    assert random'[|random| - 1] == n;
    forall m | m in info - {n} ensures m in info' - {n} && SameEntry(info[m], info'[m]) {
      assert m in info;
    }
    forall m | m in info' - {n} ensures m in info - {n} && SameEntry(info[m], info'[m]) {
      assert m in info';
    }
  }

  lemma LimboIsNew(h: Hashing, s: Tables, n: Id, limbo: set<Id>, uncounted: int)
    requires Inv(h, s, limbo, uncounted) && n in limbo
    ensures n in s.info && !s.info[n].inTried && 0 <= s.info[n].refCount
  {
  }

  /** The new table without the slots of address n. */
  function Without(news: map<Slot, Id>, n: Id): map<Slot, Id> {
    map l | l in news && news[l] != n :: news[l]
  }

  lemma WithoutMore(news: map<Slot, Id>, l: Slot, n: Id)
    requires l in news && news[l] == n
    ensures Without(news - {l}, n) == Without(news, n)
  {
  }

  lemma WithoutNone(news: map<Slot, Id>, n: Id)
    requires Slots(news, n) == {}
    ensures Without(news, n) == news
  {
    forall l | l in news ensures news[l] != n {
      SlotsMember(news, n, l);
    }
  }

  /** What moving n to the tried table does to the new table: n leaves it, and the address that was in its
      tried slot, if any, enters the slot of its own source. */
  function NewAfterTry(h: Hashing, s: Tables, n: Id): map<Slot, Id>
    requires n in s.info
  {
    var rest, l := Without(s.news, n), TriedSlot(h, s.key, s.info[n].service);
    if l in s.tried && s.tried[l] in s.info then
      var i := s.info[s.tried[l]];
      rest[SourceSlot(h, s.key, i.service, i.source) := s.tried[l]]
    else rest
  }

  lemma StatsKeepNew(h: Hashing, s: Tables, n: Id, i: Info)
    requires n in s.info && i.service == s.info[n].service && i.source == s.info[n].source
    ensures NewAfterTry(h, s.(info := s.info[n := i]), n) == NewAfterTry(h, s, n)
  {
  }

  lemma SlotsMember(news: map<Slot, Id>, n: Id, l: Slot)
    ensures l in Slots(news, n) <==> l in news && news[l] == n
  {
  }

  lemma SlotsOfAddress(h: Hashing, s: Tables, n: Id, bucket: nat)
    requires Inv(h, s, {n}, 0) && n in s.info
    ensures forall l :: l in Slots(s.news, n) && l.bucket == bucket ==> l == NewSlot(h, s.key, s.info[n].service, bucket)
  {
    forall l | l in Slots(s.news, n) && l.bucket == bucket ensures l == NewSlot(h, s.key, s.info[n].service, bucket) {
      SlotsMember(s.news, n, l);
    }
  }

  lemma NoSlotsLeft(h: Hashing, s: Tables, n: Id)
    requires Inv(h, s, {n}, 0) && forall l :: l in Slots(s.news, n) ==> l.bucket >= NEW_BUCKET_COUNT
    ensures n in s.info && s.info[n].refCount == 0 && Slots(s.news, n) == {}
  {
    forall l ensures l !in Slots(s.news, n) {
      SlotsMember(s.news, n, l);
    }
    assert Slots(s.news, n) == {};
  }

  lemma Recount(h: Hashing, s: Tables, limbo: set<Id>, uncounted: int, d: int)
    requires Inv(h, s, limbo, uncounted)
    ensures Inv(h, s.(nNew := s.nNew + d), limbo, uncounted - d)
  {
  }

  lemma NoSlotNoRef(h: Hashing, s: Tables, n: Id, limbo: set<Id>, uncounted: int, l: Slot)
    requires Inv(h, s, limbo, uncounted) && n in s.info && s.info[n].refCount == 0
    ensures l in s.news ==> s.news[l] != n
  {
    SlotsMember(s.news, n, l);
  }

  lemma InOwnSlot(h: Hashing, s: Tables, n: Id)
    requires Inv(h, s, {}, 0) && n in s.info && s.info[n].inTried
    ensures s.tried == s.tried[TriedSlot(h, s.key, s.info[n].service) := n]
  {
  }

  lemma FoundByAddress(h: Hashing, s: Tables, n: Id)
    requires Inv(h, s, {}, 0) && n in s.info
    ensures s.info[n].service.ip in s.addr && s.addr[s.info[n].service.ip] == n
  {
  }

  lemma SomeSlot(h: Hashing, s: Tables, n: Id) returns (l: Slot)
    requires Inv(h, s, {}, 0) && n in s.info && !s.info[n].inTried
    ensures l in Slots(s.news, n) && l.bucket < NEW_BUCKET_COUNT && l == NewSlot(h, s.key, s.info[n].service, l.bucket)
  {
    assert Slots(s.news, n) != {};
    l :| l in Slots(s.news, n);
  }

  function Doubled(n: int): (r: int)
    ensures r >= 1
    decreases n
  {
    if n <= 0 then 1 else 2 * Doubled(n - 1)
  }

  method Factor(n: int) returns (factor: int)
    ensures factor == Doubled(n) >= 1
  {
    factor := 1;
    var k := 0;
    while k < n
      invariant 0 <= k && (k <= n || k == 0) && factor == Doubled(k)
    {
      factor := factor * 2;
      k := k + 1;
    }
  }

  function SourceSlot(h: Hashing, key: nat, a: Service, source: NetAddr): Slot {
    NewSlot(h, key, a, NewBucket(h, key, a, source))
  }

  lemma KeptSelf(a: map<Id, Info>)
    ensures Kept(a, a)
  {
  }

  lemma DroppedKept(a: map<Id, Info>, n: Id, b: map<Id, Info>)
    requires OnlyPositions(a - {n}, b)
    ensures Kept(a, b) && n !in b
  {
  }

  lemma KeptTimes(a: map<Id, Info>, b: map<Id, Info>)
    requires Kept(a, b) && TimesOk(a)
    ensures TimesOk(b)
  {
  }

  lemma NoSlotNoRefLater(h: Hashing, s: Tables, n: Id, l: Slot)
    requires Inv(h, s, {n}, 0) && n in s.info
    ensures l in s.news && s.news[l] == n ==> s.info[n].refCount > 0
  {
    SlotsMember(s.news, n, l);
  }

  lemma OccupantKnown(h: Hashing, s: Tables, l: Slot, limbo: set<Id>, uncounted: int)
    requires Inv(h, s, limbo, uncounted) && l in s.news
    ensures s.news[l] in s.info
  {
  }

  lemma FindIsKnown(h: Hashing, s: Tables, a: NetAddr)
    requires Inv(h, s, {}, 0)
    ensures a in s.addr ==> s.addr[a] in s.info && s.info[s.addr[a]].service.ip == a
  {
  }

  /** Of all other addresses only reference counts, tables and places change, or they are dropped. */
  ghost predicate OthersKept(a: map<Id, Info>, b: map<Id, Info>, n: Id) {
    forall k :: k in b && k != n ==>
      k in a && b[k] == a[k].(refCount := b[k].refCount, inTried := b[k].inTried, randomPos := b[k].randomPos)
  }

  lemma OneChanges(a: map<Id, Info>, b: map<Id, Info>, n: Id)
    requires n in b && b == a[n := b[n]]
    ensures OthersKept(a, b, n)
  {
  }

  lemma OthersKeptTwice(a: map<Id, Info>, a': map<Id, Info>, b: map<Id, Info>, n: Id)
    requires n in a' && a' == a[n := a'[n]] && Kept(a', b)
    ensures OthersKept(a, b, n)
  {
  }

  lemma MarkedOthersKept(a: map<Id, Info>, a': map<Id, Info>, b: map<Id, Info>, n: Id)
    requires n in a' && a' == a[n := a'[n]] && Kept(Marked(a', n, true), b)
    ensures OthersKept(a, b, n)
  {
  }

  lemma TriedHasNoRefs(h: Hashing, s: Tables, n: Id)
    requires Inv(h, s, {}, 0) && n in s.info && s.info[n].inTried
    ensures s.info[n].refCount == 0
  {
    TableBounds(h, s);
    hide RandomOk, AddrOk, IdsOk, TriedOk, CountsOk, NewOk, Slots;
  }

  lemma KeptEntry(a: map<Id, Info>, b: map<Id, Info>, n: Id)
    requires Kept(a, b) && n in b
    ensures n in a && (b[n].inTried ==> a[n].inTried)
    ensures b[n] == a[n].(refCount := b[n].refCount, inTried := b[n].inTried, randomPos := b[n].randomPos)
  {
  }

  lemma KeptService(a: map<Id, Info>, b: map<Id, Info>, n: Id)
    requires Kept(a, b) && n in b
    ensures n in a && b[n].service == a[n].service
  {
  }

  // ---------- offering addresses ----------

  function OfferLimit(n: nat): nat {
    var k := GETADDR_MAX_PCT * n / 100;
    if k > GETADDR_MAX then GETADDR_MAX else k
  }

  function AddressOf(i: Info): Address {
    Address(i.service, i.services, i.time)
  }

  /** What is offered are the addresses among the first n that are not terrible, in order. */
  ghost predicate Picked(info: map<Id, Info>, random: seq<Id>, n: nat, now: int, out: seq<Address>)
    decreases n
  {
    && n <= |random|
    && if n == 0 then out == []
       else
         && random[n - 1] in info
         && var i := info[random[n - 1]];
         if IsTerrible(i, now) then Picked(info, random, n - 1, now, out)
         else out != [] && out[|out| - 1] == AddressOf(i) && Picked(info, random, n - 1, now, out[..|out| - 1])
  }

  lemma PickedNone(info: map<Id, Info>, random: seq<Id>, now: int)
    ensures Picked(info, random, 0, now, [])
  {
  }

  lemma PickedNext(info: map<Id, Info>, random: seq<Id>, n: nat, now: int, out: seq<Address>)
    requires Picked(info, random, n, now, out) && n < |random| && random[n] in info
    ensures var i := info[random[n]];
      Picked(info, random, n + 1, now, if IsTerrible(i, now) then out else out + [AddressOf(i)])
  {
    var i := info[random[n]];
    assert (out + [AddressOf(i)])[..|out|] == out;
  }

  lemma {:induction false} PickedSame(info: map<Id, Info>, random: seq<Id>, info': map<Id, Info>, random': seq<Id>,
                                      n: nat, now: int, out: seq<Address>)
    requires Picked(info, random, n, now, out) && OnlyPositions(info, info')
    requires n <= |random'| && forall k :: 0 <= k < n ==> random'[k] == random[k]
    ensures Picked(info', random', n, now, out)
    decreases n
  {
    if n > 0 {
      var m := random[n - 1];
      assert m in info && SameEntry(info[m], info'[m]);
      PickedSame(info, random, info', random', n - 1, now, if IsTerrible(info[m], now) then out else out[..|out| - 1]);
    }
  }

  lemma PickedSwap(info: map<Id, Info>, random: seq<Id>, info': map<Id, Info>, random': seq<Id>,
                   n: nat, j: nat, now: int, out: seq<Address>)
    requires Picked(info, random, n, now, out) && OnlyPositions(info, info')
    requires n <= j < |random| && random' == Swapped(random, n, j)
    ensures Picked(info', random', n, now, out)
  {
    PickedSame(info, random, info', random', n, now, out);
  }

  lemma {:induction false} PickedAll(info: map<Id, Info>, random: seq<Id>, n: nat, now: int, out: seq<Address>, k: nat)
    requires Picked(info, random, n, now, out) && k < n
    ensures k < |random| && random[k] in info
    ensures !IsTerrible(info[random[k]], now) ==> AddressOf(info[random[k]]) in out
    decreases n
  {
    var i := info[random[n - 1]];
    var rest := if IsTerrible(i, now) then out else out[..|out| - 1];
    if k < n - 1 {
      PickedAll(info, random, n - 1, now, rest, k);
    }
  }

  lemma {:induction false} PickedFrom(info: map<Id, Info>, random: seq<Id>, n: nat, now: int, out: seq<Address>, i: nat)
    returns (k: nat)
    requires Picked(info, random, n, now, out) && i < |out|
    ensures k < n && k < |random| && random[k] in info
    ensures !IsTerrible(info[random[k]], now) && out[i] == AddressOf(info[random[k]])
    ensures Picked(info, random, k, now, out[..i])
    decreases n
  {
    var x := info[random[n - 1]];
    if IsTerrible(x, now) {
      k := PickedFrom(info, random, n - 1, now, out, i);
    } else if i == |out| - 1 {
      k := n - 1;
    } else {
      k := PickedFrom(info, random, n - 1, now, out[..|out| - 1], i);
      assert out[..|out| - 1][..i] == out[..i];
    }
  }

  /** An address that is known, as it is known, and worth keeping. */
  ghost predicate IsOffered(s: Tables, now: int, a: Address) {
    && a.service.ip in s.addr && s.addr[a.service.ip] in s.info
    && a == AddressOf(s.info[s.addr[a.service.ip]]) && WorthKeeping(s.info[s.addr[a.service.ip]], now)
  }

  ghost predicate GoodOffer(s: Tables, now: int, out: seq<Address>) {
    && (forall i :: 0 <= i < |out| ==> IsOffered(s, now, out[i]))
    && (forall i, j :: 0 <= i < j < |out| ==> out[i].service.ip != out[j].service.ip)
  }

  ghost predicate FullOffer(s: Tables, now: int, out: seq<Address>) {
    forall n :: n in s.info && WorthKeeping(s.info[n], now) ==> AddressOf(s.info[n]) in out
  }

  lemma PickedOffers(h: Hashing, s: Tables, n: nat, now: int, out: seq<Address>)
    requires Inv(h, s, {}, 0) && Picked(s.info, s.random, n, now, out)
    ensures GoodOffer(s, now, out) && (n == |s.random| ==> FullOffer(s, now, out))
  {
    hide Picked, IsTerrible, WorthKeeping, TriedOk, NewOk, RefsOk, CountsOk;
    forall i | 0 <= i < |out| ensures IsOffered(s, now, out[i]) {
      var k := PickedFrom(s.info, s.random, n, now, out, i);
      FoundByAddress(h, s, s.random[k]);
      TerribleIff(s.info[s.random[k]], now);
    }
    forall i, j | 0 <= i < j < |out| ensures out[i].service.ip != out[j].service.ip {
      var k := PickedFrom(s.info, s.random, n, now, out, j);
      var k' := PickedFrom(s.info, s.random, k, now, out[..j], i);
      FoundByAddress(h, s, s.random[k]);
      FoundByAddress(h, s, s.random[k']);
      assert s.info[s.random[k]].randomPos != s.info[s.random[k']].randomPos;
    }
    if n == |s.random| {
      forall m | m in s.info && WorthKeeping(s.info[m], now) ensures AddressOf(s.info[m]) in out {
        TerribleIff(s.info[m], now);
        PickedAll(s.info, s.random, n, now, out, s.info[m].randomPos);
      }
    }
  }

  lemma PositionsSelf(a: map<Id, Info>)
    ensures OnlyPositions(a, a)
  {
  }

  lemma PositionsTransitive(a: map<Id, Info>, b: map<Id, Info>, c: map<Id, Info>)
    requires OnlyPositions(a, b) && OnlyPositions(b, c)
    ensures OnlyPositions(a, c)
  {
    forall n | n in a ensures n in c && SameEntry(a[n], c[n]) {
      assert SameEntry(a[n], b[n]) && SameEntry(b[n], c[n]);
    }
    forall n | n in c ensures n in a {
      assert n in b;
    }
  }

  lemma InOrder(h: Hashing, s: Tables, k: nat)
    requires Inv(h, s, {}, 0) && k < |s.random|
    ensures s.random[k] in s.info
  {
  }
}
