/** Locations of a track, their order, and the order in which a FETCH response lists them. */
module Locations {
  /** Object IDs are 62-bit variable-length integers; no Object of a group comes after this one. */
  const END_OF_GROUP: nat := 0x3FFF_FFFF_FFFF_FFFF

  datatype GroupOrder = Publisher | Ascending | Descending

  datatype Location = Location(group: nat, objectId: nat) {
    predicate Valid() {
      objectId <= END_OF_GROUP
    }

    predicate Before(other: Location) {
      group < other.group || (group == other.group && objectId < other.objectId)
    }

    predicate UpTo(other: Location) {
      this == other || Before(other)
    }
  }

  function Min(a: Location, b: Location): Location {
    if a.Before(b) then a else b
  }

  /** The last Location an End Location asks for; Object 0 asks for the whole group. */
  function InclusiveEnd(end: Location): Location {
    if end.objectId == 0 then Location(end.group, END_OF_GROUP) else Location(end.group, end.objectId - 1)
  }

  /** Response order: groups in the requested order, Objects of a group by Object ID. */
  predicate Precedes(order: GroupOrder, a: Location, b: Location) {
    if order.Descending?
    then a.group > b.group || (a.group == b.group && a.objectId < b.objectId)
    else a.Before(b)
  }

  predicate InRange(start: Location, last: Location, loc: Location) {
    start.UpTo(loc) && loc.UpTo(last) && loc.Valid()
  }
}

/** Answering a FETCH range from retained Objects, and splicing the rest from upstream. */
module FetchPlanning {
  import opened Options
  import opened Locations

  type Positive = n: int | 0 < n witness 1

  /** A complete Object; `cost` is the memory it holds while retained. */
  datatype Object = Object(group: nat, objectId: nat, cost: Positive, payload: seq<bv8>) {
    function Location(): Location {
      Locations.Location(group, objectId)
    }
  }

  type Store = map<nat, map<nat, Object>>

  datatype FetchPlan =
    | Complete(objects: seq<Object>, endLocation: Location)
    | Partial(objects: seq<Object>, firstUnknown: Location, lastLocation: Location, endLocation: Location)
    | BeyondLargest
    | NothingPublished

  predicate Retained(store: Store, loc: Location) {
    loc.group in store && loc.objectId in store[loc.group]
  }

  ghost predicate WellKeyed(store: Store) {
    forall loc: Location :: Retained(store, loc) ==> store[loc.group][loc.objectId].Location() == loc
  }

  ghost function RetainedLocations(store: Store): set<Location> {
    set g, o | g in store && o in store[g] :: Location(g, o)
  }

  /** The Locations of the range that response order puts before `stop`; all of them without a stop. */
  ghost predicate Leading(order: GroupOrder, start: Location, last: Location, stop: Option<Location>, loc: Location) {
    InRange(start, last, loc) && (stop.Some? ==> Precedes(order, loc, stop.value))
  }

  ghost predicate Holds(objects: seq<Object>, loc: Location) {
    exists i :: 0 <= i < |objects| && objects[i].Location() == loc
  }

  /** `objects` are exactly the retained Objects at every leading Location, in response order. */
  ghost predicate IsListing(
      store: Store, order: GroupOrder, start: Location, last: Location, stop: Option<Location>, objects: seq<Object>) {
    && (forall i :: 0 <= i < |objects| ==>
          && Leading(order, start, last, stop, objects[i].Location())
          && Retained(store, objects[i].Location())
          && store[objects[i].group][objects[i].objectId] == objects[i])
    && (forall i, j :: 0 <= i < j < |objects| ==> Precedes(order, objects[i].Location(), objects[j].Location()))
    && (forall loc :: Leading(order, start, last, stop, loc) ==> Holds(objects, loc))
  }

  /** A response that covers the range ends with `loc`. */
  ghost predicate IsFinal(order: GroupOrder, start: Location, last: Location, loc: Location) {
    InRange(start, last, loc) && forall other :: InRange(start, last, other) && other != loc ==>
        Precedes(order, other, loc)
  }

  /** The End Location to report: one past Largest if the request reaches beyond it, else the one asked for. */
  function ResponseEnd(end: Location, largest: Location): (r: Location)
    ensures InclusiveEnd(r) == Min(InclusiveEnd(end), largest)
  {
    if largest.Before(InclusiveEnd(end)) then Location(largest.group, largest.objectId + 1) else end
  }

  /** What a FETCH answer has to say about a range, a cache and a Largest Location. */
  ghost predicate Answers(
      store: Store, largest: Option<Location>, start: Location, end: Location, order: GroupOrder, plan: FetchPlan) {
    if largest.None? then plan.NothingPublished?
    else if largest.value.Before(start) then plan.BeyondLargest?
    else
      var last := Min(InclusiveEnd(end), largest.value);
      match plan
      case Complete(objects, endLocation) =>
        IsListing(store, order, start, last, None, objects) && endLocation == ResponseEnd(end, largest.value)
      case Partial(objects, firstUnknown, lastLocation, endLocation) =>
        && InRange(start, last, firstUnknown)
        && !Retained(store, firstUnknown)
        && IsListing(store, order, start, last, Some(firstUnknown), objects)
        && IsFinal(order, start, last, lastLocation)
        && endLocation == ResponseEnd(end, largest.value)
      case _ => false
  }

  // ---------------------------------------------------------------- the planning loop

  /** Group number `i` of the range, in response order. */
  function GroupAt(order: GroupOrder, start: Location, last: Location, i: nat): nat
    requires start.group + i <= last.group
  {
    if order.Descending? then last.group - i else start.group + i
  }

  function FirstObject(start: Location, group: nat): nat {
    if group == start.group then start.objectId else 0
  }

  function FinalObject(last: Location, group: nat): nat {
    if group == last.group then last.objectId else END_OF_GROUP
  }

  function GroupStart(order: GroupOrder, start: Location, last: Location, i: nat): Location
    requires start.group + i <= last.group
  {
    var group := GroupAt(order, start, last, i);
    Location(group, FirstObject(start, group))
  }

  /** Where the scan continues after group number `i` of the range, if anywhere. */
  function NextGroupStart(order: GroupOrder, start: Location, last: Location, i: nat): Option<Location>
    requires start.group + i <= last.group
  {
    if start.group + i == last.group then None else Some(GroupStart(order, start, last, i + 1))
  }

  /** Taking the Object at the stop extends a listing to any stop that lets in just that Location. */
  lemma ExtendListing(store: Store, order: GroupOrder, start: Location, last: Location,
                      at: Location, next: Option<Location>, objects: seq<Object>)
    requires WellKeyed(store)
    requires IsListing(store, order, start, last, Some(at), objects)
    requires InRange(start, last, at) && Retained(store, at)
    requires forall loc :: InRange(start, last, loc) ==>
               (Leading(order, start, last, next, loc) <==> loc == at || Precedes(order, loc, at))
    ensures IsListing(store, order, start, last, next, objects + [store[at.group][at.objectId]])
  {
    var longer := objects + [store[at.group][at.objectId]];
    assert longer[|objects|].Location() == at;
    forall loc | Leading(order, start, last, next, loc)
      ensures Holds(longer, loc)
    {
      if loc != at {
        assert Leading(order, start, last, Some(at), loc);
        var i :| 0 <= i < |objects| && objects[i].Location() == loc;
        assert longer[i].Location() == loc;
      }
    }
  }

  /** Locations that all lie in a set, strictly ordered, are no more than the set has. */
  lemma {:induction false} ListingFitsIn(order: GroupOrder, objects: seq<Object>, locations: set<Location>)
    requires forall i :: 0 <= i < |objects| ==> objects[i].Location() in locations
    requires forall i, j :: 0 <= i < j < |objects| ==> Precedes(order, objects[i].Location(), objects[j].Location())
    ensures |objects| <= |locations|
  {
    if objects != [] {
      var n := |objects| - 1;
      ListingFitsIn(order, objects[..n], locations - {objects[n].Location()});
    }
  }

  lemma ListingIsBounded(
      store: Store, order: GroupOrder, start: Location, last: Location, stop: Option<Location>, objects: seq<Object>)
    requires IsListing(store, order, start, last, stop, objects)
    ensures |objects| <= |RetainedLocations(store)|
  {
    ListingFitsIn(order, objects, RetainedLocations(store));
  }

  lemma EmptyListing(store: Store, order: GroupOrder, start: Location, last: Location)
    requires last.Before(start)
    ensures IsListing(store, order, start, last, None, [])
  {
  }

  /** Scan group number `i` of the range until an Object is missing or the group is done. */
  method ScanGroup(store: Store, order: GroupOrder, start: Location, last: Location, i: nat, before: seq<Object>)
    returns (objects: seq<Object>, unknown: Option<Location>, lookups: nat)
    requires WellKeyed(store)
    requires start.UpTo(last) && start.Valid() && last.Valid() && start.group + i <= last.group
    requires IsListing(store, order, start, last, Some(GroupStart(order, start, last, i)), before)
    ensures unknown.Some? ==>
              && InRange(start, last, unknown.value)
              && !Retained(store, unknown.value)
              && IsListing(store, order, start, last, unknown, objects)
    ensures unknown.None? ==>
              IsListing(store, order, start, last, NextGroupStart(order, start, last, i), objects)
    ensures |before| + lookups == |objects| + if unknown.Some? then 1 else 0
  {
    var group := GroupAt(order, start, last, i);
    var objectId := FirstObject(start, group);
    var final := FinalObject(last, group);
    objects, lookups := before, 0;
    while true
      invariant |before| + lookups == |objects|
      invariant FirstObject(start, group) <= objectId <= final
      invariant IsListing(store, order, start, last, Some(Location(group, objectId)), objects)
      decreases final - objectId
    {
      var at := Location(group, objectId);
      lookups := lookups + 1;
      if !Retained(store, at) {
        return objects, Some(at), lookups;
      }
      if objectId >= final {
        ExtendListing(store, order, start, last, at, NextGroupStart(order, start, last, i), objects);
        return objects + [store[group][objectId]], None, lookups;
      }
      ExtendListing(store, order, start, last, at, Some(Location(group, objectId + 1)), objects);
      objects := objects + [store[group][objectId]];
      objectId := objectId + 1;
    }
  }

  /** Scan the groups of a non-empty range in response order. */
  method ScanRange(store: Store, order: GroupOrder, start: Location, last: Location)
    returns (objects: seq<Object>, unknown: Option<Location>, lookups: nat)
    requires WellKeyed(store)
    requires start.UpTo(last) && start.Valid() && last.Valid()
    ensures unknown.Some? ==> InRange(start, last, unknown.value) && !Retained(store, unknown.value)
    ensures IsListing(store, order, start, last, unknown, objects)
    ensures lookups == |objects| + if unknown.Some? then 1 else 0
  {
    hide WellKeyed;
    objects, unknown, lookups := [], None, 0;
    var i := 0;
    while start.group + i <= last.group
      invariant start.group + i <= last.group + 1
      invariant IsListing(store, order, start, last,
                  if start.group + i <= last.group then Some(GroupStart(order, start, last, i)) else None, objects)
      invariant unknown.None? && lookups == |objects|
      decreases last.group + 1 - start.group - i
    {
      var more: nat;
      objects, unknown, more := ScanGroup(store, order, start, last, i, objects);
      lookups := lookups + more;
      if unknown.Some? {
        return;
      }
      i := i + 1;
    }
  }

  /**
   * Match a FETCH range against the retained Objects. `largest` is the Largest Location known
   * when planning starts and `store` what is retained when the cache is read; `lookups` counts
   * the lookups made in it.
   */
  method Plan(store: Store, largest: Option<Location>, start: Location, end: Location, order: GroupOrder)
    returns (plan: FetchPlan, lookups: nat)
    requires WellKeyed(store)
    requires start.Valid() && end.Valid() && (largest.Some? ==> largest.value.Valid())
    ensures Answers(store, largest, start, end, order, plan)
    ensures lookups <= |RetainedLocations(store)| + 1
  {
    hide WellKeyed;
    hide IsListing;
    if largest.None? {
      return NothingPublished, 0;
    }
    if largest.value.Before(start) {
      return BeyondLargest, 0;
    }
    var requested := InclusiveEnd(end);
    var endLocation :=
      if largest.value.Before(requested) then Location(largest.value.group, largest.value.objectId + 1) else end;
    var last := Min(requested, largest.value);
    if last.Before(start) {
      EmptyListing(store, order, start, last);
      return Complete([], endLocation), 0;
    }
    var lastLocation :=
      if order.Descending? && start.group != last.group then Location(start.group, END_OF_GROUP) else last;
    var objects, unknown;
    objects, unknown, lookups := ScanRange(store, order, start, last);
    ListingIsBounded(store, order, start, last, unknown, objects);
    match unknown
    case None => plan := Complete(objects, endLocation);
    case Some(at) => plan := Partial(objects, at, lastLocation, endLocation);
  }

  /** An answer is Complete exactly when every Location of the clamped range is retained. */
  lemma CompleteExactlyWhenRetained(
      store: Store, largest: Location, start: Location, end: Location, order: GroupOrder, plan: FetchPlan)
    requires start.UpTo(largest)
    requires Answers(store, Some(largest), start, end, order, plan)
    ensures plan.Complete? <==> forall loc :: InRange(start, Min(InclusiveEnd(end), largest), loc) ==>
        Retained(store, loc)
  {
    var last := Min(InclusiveEnd(end), largest);
    if plan.Complete? {
      forall loc | InRange(start, last, loc)
        ensures Retained(store, loc)
      {
        assert Leading(order, start, last, None, loc);
        assert Holds(plan.objects, loc);
      }
    }
  }

  ghost predicate Sorted(order: GroupOrder, locations: seq<Location>) {
    forall i, j :: 0 <= i < j < |locations| ==> Precedes(order, locations[i], locations[j])
  }

  /** Strictly ordered sequences with the same members are equal. */
  lemma {:induction false} SortedIsUnique(order: GroupOrder, a: seq<Location>, b: seq<Location>)
    requires Sorted(order, a) && Sorted(order, b)
    requires forall loc :: loc in a <==> loc in b
    ensures a == b
  {
    assert b != [] ==> b[0] in a;
    if a != [] {
      assert a[0] in b;
      var m, n := |a| - 1, |b| - 1;
      assert a[m] in b && b[n] in a;
      assert a[m] == b[n];
      forall loc
        ensures loc in a[..m] <==> loc in b[..n]
      {
        assert loc in a[..m] <==> loc in a && loc != a[m];
        assert loc in b[..n] <==> loc in b && loc != b[n];
      }
      SortedIsUnique(order, a[..m], b[..n]);
      assert a == a[..m] + [a[m]] && b == b[..n] + [b[n]];
    }
  }

  function LocationsOf(objects: seq<Object>): seq<Location> {
    seq(|objects|, i requires 0 <= i < |objects| => objects[i].Location())
  }

  /** Two listings up to the same stop are the same sequence. */
  lemma ListingIsUnique(
      store: Store, order: GroupOrder, start: Location, last: Location, stop: Option<Location>, a: seq<Object>,
      b: seq<Object>)
    requires IsListing(store, order, start, last, stop, a)
    requires IsListing(store, order, start, last, stop, b)
    ensures a == b
  {
    var la, lb := LocationsOf(a), LocationsOf(b);
    forall loc
      ensures loc in la <==> Leading(order, start, last, stop, loc)
      ensures loc in lb <==> Leading(order, start, last, stop, loc)
    {
      assert loc in la <==> Holds(a, loc) by {
        if Holds(a, loc) {
          var i :| 0 <= i < |a| && a[i].Location() == loc;
          assert la[i] == loc;
        }
      }
      assert loc in lb <==> Holds(b, loc) by {
        if Holds(b, loc) {
          var i :| 0 <= i < |b| && b[i].Location() == loc;
          assert lb[i] == loc;
        }
      }
    }
    SortedIsUnique(order, la, lb);
    assert forall i :: 0 <= i < |a| ==> la[i] == lb[i];
  }

  /** The specification leaves no choice: it fixes the whole answer. */
  lemma AnswerIsUnique(
      store: Store, largest: Option<Location>, start: Location, end: Location, order: GroupOrder, p: FetchPlan,
      q: FetchPlan)
    requires Answers(store, largest, start, end, order, p)
    requires Answers(store, largest, start, end, order, q)
    ensures p == q
  {
    if p.Complete? || p.Partial? {
      var last := Min(InclusiveEnd(end), largest.value);
      CompleteExactlyWhenRetained(store, largest.value, start, end, order, p);
      CompleteExactlyWhenRetained(store, largest.value, start, end, order, q);
      if p.Partial? {
        FirstUnknownIsUnique(store, order, start, last, p.firstUnknown, q.firstUnknown, p.objects, q.objects);
      }
      var stop := if p.Complete? then None else Some(p.firstUnknown);
      ListingIsUnique(store, order, start, last, stop, p.objects, q.objects);
    }
  }

  lemma FirstUnknownIsUnique(
      store: Store, order: GroupOrder, start: Location, last: Location, a: Location, b: Location, ao: seq<Object>,
      bo: seq<Object>)
    requires InRange(start, last, a) && !Retained(store, a) && IsListing(store, order, start, last, Some(a), ao)
    requires InRange(start, last, b) && !Retained(store, b) && IsListing(store, order, start, last, Some(b), bo)
    ensures a == b
  {
    assert Precedes(order, a, b) ==> Leading(order, start, last, Some(b), a);
    assert Precedes(order, b, a) ==> Leading(order, start, last, Some(a), b);
  }

  // ---------------------------------------------------------------- in plain numbers

  /** Object `o` of group `g` is neither before the start, nor past the end asked for, nor past Largest. */
  predicate Asked(start: Location, end: Location, largest: Location, g: nat, o: nat) {
    && (start.group < g || (start.group == g && start.objectId <= o))
    && (if end.objectId == 0 then g <= end.group else g < end.group || (g == end.group && o < end.objectId))
    && (g < largest.group || (g == largest.group && o <= largest.objectId))
  }

  /** An End Location with Object 0 asks for all of its group, any other for what comes before it. */
  lemma RequestedExactly(start: Location, end: Location, loc: Location)
    requires loc.Valid()
    ensures InRange(start, InclusiveEnd(end), loc) <==>
            && start.UpTo(loc)
            && (if end.objectId == 0 then loc.group <= end.group else loc.Before(end))
  {
  }

  lemma AskedExactly(start: Location, end: Location, largest: Location, g: nat, o: nat)
    requires o <= END_OF_GROUP
    ensures InRange(start, Min(InclusiveEnd(end), largest), Location(g, o)) <==> Asked(start, end, largest, g, o)
  {
  }

  ghost predicate InResponseOrder(order: GroupOrder, objects: seq<Object>) {
    forall i, j :: 0 <= i < j < |objects| ==>
      if objects[i].group == objects[j].group then objects[i].objectId < objects[j].objectId
      else if order.Descending? then objects[i].group > objects[j].group
      else objects[i].group < objects[j].group
  }

  /**
   * An answer in plain numbers: its Objects are retained ones that were asked for, groups in the order
   * wanted and Objects of a group ascending, and its End Location is one past Largest if more was asked
   * for than that, else the one asked for.
   */
  lemma AnswerInPlainNumbers(
      store: Store, largest: Location, start: Location, end: Location, order: GroupOrder, plan: FetchPlan)
    requires Answers(store, Some(largest), start, end, order, plan) && start.UpTo(largest)
    ensures plan.Complete? || plan.Partial?
    ensures forall i :: 0 <= i < |plan.objects| ==>
              var x := plan.objects[i];
              && Asked(start, end, largest, x.group, x.objectId)
              && x.group in store && x.objectId in store[x.group] && store[x.group][x.objectId] == x
    ensures InResponseOrder(order, plan.objects)
    ensures plan.endLocation ==
            if largest.group < end.group
               || (largest.group == end.group && (if end.objectId == 0 then largest.objectId < END_OF_GROUP
                                                  else largest.objectId + 1 < end.objectId))
            then Location(largest.group, largest.objectId + 1) else end
  {
    forall i | 0 <= i < |plan.objects|
      ensures Asked(start, end, largest, plan.objects[i].group, plan.objects[i].objectId)
    {
      AskedExactly(start, end, largest, plan.objects[i].group, plan.objects[i].objectId);
    }
  }

  /** No range is answered exactly when nothing is published, or the start is past Largest. */
  lemma NoRangeExactly(
      store: Store, largest: Option<Location>, start: Location, end: Location, order: GroupOrder, plan: FetchPlan)
    requires Answers(store, largest, start, end, order, plan)
    ensures plan.NothingPublished? <==> largest.None?
    ensures plan.BeyondLargest? <==>
            && largest.Some?
            && (largest.value.group < start.group
                || (largest.value.group == start.group && largest.value.objectId < start.objectId))
  {
  }

  /** Where Object `o` of group `g` stands to `u` in a response. */
  predicate ComesBefore(order: GroupOrder, g: nat, o: nat, u: Location) {
    if g == u.group then o < u.objectId else if order.Descending? then g > u.group else g < u.group
  }

  /**
   * What an answer has of what was asked for, again in plain numbers: all of it when Complete, and when
   * Partial what comes before the first unknown, which was asked for too and is not retained.
   */
  lemma AnswerIsWhole(
      store: Store, largest: Location, start: Location, end: Location, order: GroupOrder, plan: FetchPlan, g: nat,
          o: nat)
    requires Answers(store, Some(largest), start, end, order, plan) && start.UpTo(largest)
    requires Asked(start, end, largest, g, o) && o <= END_OF_GROUP
    ensures plan.Complete? || plan.Partial?
    ensures Holds(plan.objects, Location(g, o)) <==> plan.Complete? || ComesBefore(order, g, o, plan.firstUnknown)
    ensures plan.Partial? ==>
              var u := plan.firstUnknown;
              Asked(start, end, largest, u.group, u.objectId) && !(u.group in store && u.objectId in store[u.group])
  {
    var last := Min(InclusiveEnd(end), largest);
    AskedExactly(start, end, largest, g, o);
    if plan.Partial? {
      AskedExactly(start, end, largest, plan.firstUnknown.group, plan.firstUnknown.objectId);
    }
    var stop := if plan.Partial? then Some(plan.firstUnknown) else None;
    HoldsIsLeading(store, order, start, last, stop, plan.objects, Location(g, o));
  }

  lemma HoldsIsLeading(
      store: Store, order: GroupOrder, start: Location, last: Location, stop: Option<Location>,
      objects: seq<Object>, loc: Location)
    requires IsListing(store, order, start, last, stop, objects)
    ensures Holds(objects, loc) <==> Leading(order, start, last, stop, loc)
  {
    if Holds(objects, loc) {
      var i :| 0 <= i < |objects| && objects[i].Location() == loc;
      assert Leading(order, start, last, stop, objects[i].Location());
    }
  }

  // ---------------------------------------------------------------- splicing upstream

  /** What the relay answers itself and where it asks upstream to start. */
  datatype Splice = Splice(prefix: seq<Object>, from: Location)

  /** Only an ascending answer with a retained prefix is spliced; anything else goes upstream whole. */
  function SpliceOf(plan: FetchPlan, order: GroupOrder, start: Location): Splice
    requires plan.Partial?
  {
    if order == Ascending && plan.objects != [] then Splice(plan.objects, plan.firstUnknown) else Splice([], start)
  }

  predicate Requested(start: Location, end: Location, loc: Location) {
    InRange(start, InclusiveEnd(end), loc)
  }

  /** The retained prefix and the upstream request partition the original request. */
  lemma SpliceIsExact(
      store: Store, largest: Location, start: Location, end: Location, order: GroupOrder, plan: FetchPlan)
    requires start.Valid() && end.Valid() && largest.Valid() && start.UpTo(largest)
    requires Answers(store, Some(largest), start, end, order, plan) && plan.Partial?
    ensures var splice := SpliceOf(plan, order, start);
            && Requested(splice.from, end, splice.from)
            && (forall loc :: Requested(start, end, loc) <==>
                Holds(splice.prefix, loc) || Requested(splice.from, end, loc))
            && (forall loc :: !(Holds(splice.prefix, loc) && Requested(splice.from, end, loc)))
            && (forall i, loc :: 0 <= i < |splice.prefix| && Requested(splice.from, end, loc) ==>
                  Precedes(order, splice.prefix[i].Location(), loc))
            && (if order.Ascending? && plan.objects != []
                then splice.prefix == plan.objects && splice.from == plan.firstUnknown
                else splice.prefix == [] && splice.from == start)
  {
    var last := Min(InclusiveEnd(end), largest);
    var splice := SpliceOf(plan, order, start);
    if splice.prefix != [] {
      forall loc | Requested(start, end, loc) && !Requested(splice.from, end, loc)
        ensures Holds(splice.prefix, loc)
      {
        assert Leading(order, start, last, Some(plan.firstUnknown), loc);
      }
    }
  }
}
