/** One track's retention and the byte budget it shares with the other tracks. */
module RetainedTracks {
  import opened Options
  import opened Locations
  import opened FetchPlanning
  import opened RetainedGroups

  /** The limits every track shares, with the counter of bytes they use together. */
  class Limits {
    const policy: Policy
    var used: nat

    constructor (policy: Policy)
      ensures this.policy == policy && used == 0
    {
      this.policy := policy;
      used := 0;
    }

    /** Take `bytes` from the budget, or leave it as it was when they do not fit. */
    method Reserve(bytes: nat) returns (ok: bool)
      modifies this
      ensures ok <==> old(used) + bytes <= policy.totalBytes
      ensures used == old(used) + if ok then bytes else 0
    {
      ok := used + bytes <= policy.totalBytes;
      if ok {
        used := used + bytes;
      }
    }

    method Release(bytes: nat)
      requires bytes <= used
      modifies this
      ensures used == old(used) - bytes
    {
      used := used - bytes;
    }
  }

  function SaturatingSub(a: nat, b: nat): nat {
    if b <= a then a - b else 0
  }

  class RetainedTrack {
    const limits: Limits
    var groups: map<nat, Group>
    var arrival: seq<nat>
    var bytes: nat

    ghost function Contents(): Cache
      reads this
    {
      Cache(groups, arrival, bytes)
    }

    /** Counters agree with the contents, and this track's bytes are part of the bounded total. */
    ghost predicate Consistent()
      reads this, limits
    {
      CacheValid(Contents()) && bytes <= limits.used <= limits.policy.totalBytes
    }

    ghost predicate Valid()
      reads this, limits
    {
      Consistent() && WithinPolicy(limits.policy, Contents())
    }

    constructor (limits: Limits)
      requires limits.used <= limits.policy.totalBytes
      ensures Valid() && this.limits == limits && Contents() == EMPTY
    {
      this.limits := limits;
      groups, arrival, bytes := map[], [], 0;
    }

    /** The group that has been there longest goes, and its bytes are free again. */
    method EvictOldest()
      requires Consistent()
      modifies this, limits
      ensures Consistent()
      ensures old(arrival) == [] ==> Contents() == old(Contents()) && limits.used == old(limits.used)
      ensures old(arrival) != [] ==>
                && Contents() == Drop(old(Contents()), 1)
                && limits.used == old(limits.used) - BytesIn(old(groups), old(arrival)[0])
    {
      hide GroupValid;
      hide Keep;
      if arrival == [] {
        return;
      }
      ghost var before := Contents();
      DropValid(before, 1);
      DropFirst(before);
      var group := arrival[0];
      arrival := arrival[1..];
      if group in groups {
        var freed := groups[group].bytes;
        groups := groups - {group};
        bytes := bytes - freed;
        limits.Release(freed);
      }
    }

    /** The `k` oldest groups of `c` are gone and their bytes returned. */
    ghost predicate Reduced(c: Cache, total: nat, k: nat)
      reads this, limits
    {
      && CacheValid(c) && c.bytes <= total <= limits.policy.totalBytes && k <= |c.arrival|
      && Contents() == Drop(c, k)
      && limits.used == total - BytesOf(c.groups, c.arrival[..k])
    }

    /** So are they here, and `o` is in and paid for. */
    ghost predicate Grown(c: Cache, total: nat, o: Object, k: nat)
      reads this, limits
    {
      && CacheValid(c) && c.bytes <= total && !Contains(c, o) && o.Location().Valid()
      && BytesFit(limits.policy, c, total, o, k)
      && Contents() == Add(Drop(c, k), o)
      && limits.used == total - BytesOf(c.groups, c.arrival[..k]) + o.cost
    }

    method EvictForBytes(ghost c: Cache, ghost total: nat, ghost k: nat)
      requires Reduced(c, total, k) && k < |c.arrival|
      modifies this, limits
      ensures Reduced(c, total, k + 1)
    {
      hide CacheValid;
      hide Keep;
      EvictStep(c, k);
      EvictOldest();
    }

    method EvictForGroups(ghost c: Cache, ghost total: nat, o: Object, ghost k: nat)
      requires Grown(c, total, o, k) && |c.arrival| <= limits.policy.groups < |c.arrival| - k + NewGroups(c, o)
      modifies this, limits
      ensures Grown(c, total, o, k + 1)
    {
      hide CacheValid;
      hide BytesFit;
      hide Drop;
      hide Add;
      GrownConsistent(limits.policy, c, total, o, k);
      TooManyGroups(limits.policy, c, total, o, k);
      TrimStep(c, o, k);
      KeptValid(c, o, k);
      EvictOldest();
    }

    /** The `k` oldest groups of `c` are gone, and `o` is paid for. */
    ghost predicate Paid(c: Cache, total: nat, o: Object, k: nat)
      reads this, limits
    {
      && BytesFit(limits.policy, c, total, o, k)
      && Contents() == Drop(c, k)
      && limits.used == total - BytesOf(c.groups, c.arrival[..k]) + o.cost
    }

    /** Reserve `o`'s bytes if they fit both the track and the shared budget. */
    method TryReserve(o: Object, ghost c: Cache, ghost total: nat, ghost k: nat) returns (ok: bool)
      requires Reduced(c, total, k) && k <= OlderGroups(c.arrival, o.group)
      modifies limits
      ensures ok == BytesFit(limits.policy, c, total, o, k)
      ensures if ok then Paid(c, total, o, k) else Reduced(c, total, k)
    {
      ok := false;
      if bytes + o.cost <= limits.policy.trackBytes {
        ok := limits.Reserve(o.cost);
      }
    }

    /** Evict older groups one at a time until `o`'s bytes fit and are reserved. */
    method ReserveRoom(o: Object, older: nat, ghost c: Cache, ghost total: nat) returns (ghost k: nat)
      requires Reduced(c, total, 0) && older == OlderGroups(c.arrival, o.group)
      requires BytesFit(limits.policy, c, total, o, older)
      modifies this, limits
      ensures Paid(c, total, o, k) && (k == 0 || !BytesFit(limits.policy, c, total, o, k - 1))
    {
      hide CacheValid;
      var left := older;
      k := 0;
      var ok := TryReserve(o, c, total, k);
      while !ok
        invariant k + left == older
        invariant ok == BytesFit(limits.policy, c, total, o, k)
        invariant if ok then Paid(c, total, o, k) else Reduced(c, total, k)
        invariant k == 0 || !BytesFit(limits.policy, c, total, o, k - 1)
        decreases left
      {
        // With nothing older left the source gives up; only another track taking the budget leads there.
        assert left != 0;
        EvictForBytes(c, total, k);
        left := left - 1;
        k := k + 1;
        ok := TryReserve(o, c, total, k);
      }
    }

    /** Drop the oldest groups beyond the window, once `o` is in. */
    method TrimGroups(o: Object, ghost c: Cache, ghost total: nat, ghost first: nat) returns (ghost k: nat)
      requires Grown(c, total, o, first) && |c.arrival| <= limits.policy.groups
      requires first == 0 || !BytesFit(limits.policy, c, total, o, first - 1)
      modifies this, limits
      ensures Grown(c, total, o, k) && MakesRoomLeast(limits.policy, c, total, o, k)
    {
      hide CacheValid;
      hide Drop;
      hide Add;
      k := first;
      KeptCount(c, o, k);
      while |groups| > limits.policy.groups
        invariant Grown(c, total, o, k)
        invariant |groups| == |c.arrival| - k + NewGroups(c, o)
        invariant k == 0 || !MakesRoom(limits.policy, c, total, o, k - 1)
        decreases |groups|
      {
        EvictForGroups(c, total, o, k);
        k := k + 1;
        KeptCount(c, o, k);
      }
      LeastFromPrevious(limits.policy, c, total, o, k);
    }

    /** Put a paid-for Object in its group. */
    method Store(o: Object)
      modifies this
      ensures Contents() == Add(old(Contents()), o)
    {
      if o.group !in groups {
        arrival := arrival + [o.group];
      }
      var group := if o.group in groups then groups[o.group] else Group(map[], 0);
      groups := groups[o.group := Group(group.objects[o.objectId := o], group.bytes + o.cost)];
      bytes := bytes + o.cost;
    }

    /**
     * Retain a complete Object. With no other track touching the budget in between, it is kept
     * exactly when dropping some of the groups that arrived before its own makes room, and then
     * only the fewest of those are dropped.
     */
    method Insert(o: Object)
      requires Valid() && o.Location().Valid()
      modifies this, limits
      ensures Valid()
      ensures InsertMeets(limits.policy, old(Contents()), old(limits.used), o, Contents(), limits.used)
      ensures StoreOf(groups) == StoreOf(old(groups)) || Stores(StoreOf(old(groups)), StoreOf(groups), o)
      ensures Contents() != old(Contents()) ==> Stores(StoreOf(old(groups)), StoreOf(groups), o)
    {
      hide CacheValid;
      hide BytesFit;
      hide Drop;
      hide Add;
      if o.group in groups && o.objectId in groups[o.group].objects {
        return;
      }
      ghost var c: Cache, total: nat := Contents(), limits.used;
      var older := OlderGroups(arrival, o.group);
      var olderBytes := BytesOf(groups, arrival[..older]);
      FirstCheckDecides(limits.policy, c, total, o);
      var fitsTrack := bytes - olderBytes + o.cost <= limits.policy.trackBytes;
      var fitsTotal := SaturatingSub(limits.used, olderBytes) + o.cost <= limits.policy.totalBytes;
      if fitsTrack && fitsTotal {
        DropNothing(c);
        ghost var k := ReserveRoom(o, older, c, total);
        Store(o);
        k := TrimGroups(o, c, total, k);
        InsertedWithinPolicy(limits.policy, c, total, o, k);
        RoomIsOlder(limits.policy, c, total, o, k);
        InsertStores(c, o, k);
      }
    }

    /** Whichever is greater: the Largest Location of the live reader, or the last Location in the cache. */
    method LargestLocation(live: Option<Location>) returns (largest: Option<Location>)
      requires CacheValid(Contents())
      ensures IsLargest(StoreOf(groups), live, largest)
    {
      hide CacheValid;
      NoGroupIsEmpty(Contents());
      if groups == map[] {
        return live;
      }
      MaxExists(groups.Keys);
      var group :| group in groups.Keys && forall id :: id in groups.Keys ==> id <= group;
      var objects := groups[group].objects;
      MaxExists(objects.Keys);
      var last :| last in objects.Keys && forall id :: id in objects.Keys ==> id <= last;
      var retained := Location(group, last);
      largest := if live.Some? && retained.UpTo(live.value) then live else Some(retained);
    }

    /** Answer a FETCH range from what is retained now. */
    method PlanFetch(live: Option<Location>, start: Location, end: Location, order: GroupOrder)
      returns (plan: FetchPlan, lookups: nat)
      requires Valid()
      requires start.Valid() && end.Valid() && (live.Some? ==> live.value.Valid())
      ensures exists largest ::
          IsLargest(StoreOf(groups), live, largest) && Answers(StoreOf(groups), largest, start, end, order, plan)
      ensures lookups <= |RetainedLocations(StoreOf(groups))| + 1
    {
      hide CacheValid;
      var largest := LargestLocation(live);
      CacheWellKeyed(Contents());
      plan, lookups := Plan(StoreOf(groups), largest, start, end, order);
    }

    /** The track is dropped: its bytes go back to the budget. */
    method Free()
      requires Valid()
      modifies limits
      ensures limits.used == old(limits.used) - bytes
    {
      limits.Release(bytes);
    }
  }

  /** With `o` in and paid for, the counters agree and the budget is kept. */
  lemma GrownConsistent(policy: Policy, c: Cache, total: nat, o: Object, k: nat)
    requires CacheValid(c) && c.bytes <= total && !Contains(c, o) && o.Location().Valid()
        && BytesFit(policy, c, total, o, k)
    ensures Listed(c) && k <= OlderGroups(c.arrival, o.group)
    ensures CacheValid(Add(Drop(c, k), o))
    ensures Add(Drop(c, k), o).bytes <= total - BytesOf(c.groups, c.arrival[..k]) + o.cost <= policy.totalBytes
    ensures o.group in c.groups ==> Add(Drop(c, k), o).arrival == c.arrival[k..]
    ensures o.group !in c.groups ==> Add(Drop(c, k), o).arrival == c.arrival[k..] + [o.group]
  {
    KeptValid(c, o, k);
    if o.group in c.groups {
      StillListed(c.arrival, o.group, k);
    }
  }

  /** The greatest of the live Largest Location and the retained Locations, if there is any. */
  ghost predicate IsLargest(store: Store, live: Option<Location>, largest: Option<Location>) {
    && (largest.Some? ==> largest == live || Retained(store, largest.value))
    && (live.Some? ==> largest.Some? && live.value.UpTo(largest.value))
    && (forall loc: Location :: Retained(store, loc) ==> largest.Some? && loc.UpTo(largest.value))
  }

  lemma {:induction false} MaxExists(ids: set<nat>)
    requires ids != {}
    ensures exists max :: max in ids && forall id :: id in ids ==> id <= max
  {
    var some :| some in ids;
    if ids - {some} != {} {
      MaxExists(ids - {some});
      var max :| max in ids - {some} && forall id :: id in ids - {some} ==> id <= max;
      assert forall id :: id in ids ==> id == some || id in ids - {some};
      assert (if max < some then some else max) in ids;
    } else {
      assert forall id :: id in ids ==> id == some || id in ids - {some};
    }
  }

  lemma NoGroupIsEmpty(c: Cache)
    requires CacheValid(c)
    ensures forall id :: id in c.groups.Keys ==> c.groups[id].objects != map[]
  {
  }

  lemma CacheWellKeyed(c: Cache)
    requires CacheValid(c)
    ensures WellKeyed(StoreOf(c.groups))
    ensures forall loc: Location :: Retained(StoreOf(c.groups), loc) ==> loc.Valid()
  {
  }
}
