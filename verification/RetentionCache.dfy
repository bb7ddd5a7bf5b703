/** The retained groups of one track as a value: what one insert or eviction does to them. */
module RetainedGroups {
  import opened Locations
  import opened FetchPlanning
  import opened Sums

  /** Three limits at once: a track's groups, a track's bytes, and the bytes of all tracks. */
  datatype Policy = Policy(groups: Positive, trackBytes: Positive, totalBytes: Positive)

  datatype Group = Group(objects: map<nat, Object>, bytes: nat)

  /** `arrival` has each group once, in the order in which their first Objects came in. */
  datatype Cache = Cache(groups: map<nat, Group>, arrival: seq<nat>, bytes: nat)

  const EMPTY := Cache(map[], [], 0)

  ghost function Costs(objects: map<nat, Object>): map<nat, nat> {
    map id | id in objects :: objects[id].cost
  }

  ghost predicate GroupValid(groupId: nat, group: Group) {
    && group.objects != map[]
    && group.bytes == Total(Costs(group.objects))
    && forall id :: id in group.objects ==> group.objects[id].Location() == Location(groupId, id) && id <= END_OF_GROUP
  }

  ghost predicate Distinct(ids: seq<nat>) {
    forall i, j :: 0 <= i < j < |ids| ==> ids[i] != ids[j]
  }

  /** The bytes of the listed groups together. */
  function BytesOf(groups: map<nat, Group>, ids: seq<nat>): nat {
    if ids == [] then 0 else BytesIn(groups, ids[0]) + BytesOf(groups, ids[1..])
  }

  function BytesIn(groups: map<nat, Group>, id: nat): nat {
    if id in groups then groups[id].bytes else 0
  }

  ghost predicate Listed(c: Cache) {
    Distinct(c.arrival) && forall id :: id in c.arrival <==> id in c.groups
  }

  /** Every counter agrees with the Objects, and `arrival` lists each retained group once. */
  ghost predicate CacheValid(c: Cache) {
    && Listed(c)
    && (forall id :: id in c.groups ==> GroupValid(id, c.groups[id]))
    && c.bytes == BytesOf(c.groups, c.arrival)
  }

  ghost predicate WithinPolicy(policy: Policy, c: Cache) {
    c.bytes <= policy.trackBytes && |c.arrival| <= policy.groups
  }

  predicate Contains(c: Cache, o: Object) {
    o.group in c.groups && o.objectId in c.groups[o.group].objects
  }

  /** How many groups arrived before `group`, counting all when it has not arrived. */
  function OlderGroups(arrival: seq<nat>, group: nat): (n: nat)
    ensures n <= |arrival|
  {
    if arrival == [] || arrival[0] == group then 0 else 1 + OlderGroups(arrival[1..], group)
  }

  lemma {:induction false} OlderGroupsIsPosition(arrival: seq<nat>, group: nat)
    ensures var n := OlderGroups(arrival, group);
            && (forall i :: 0 <= i < n ==> arrival[i] != group)
            && (n < |arrival| ==> arrival[n] == group)
  {
    if arrival != [] && arrival[0] != group {
      OlderGroupsIsPosition(arrival[1..], group);
    }
  }

  ghost function Ids(ids: seq<nat>): set<nat> {
    set id | id in ids
  }

  ghost function Keep(groups: map<nat, Group>, ids: seq<nat>): map<nat, Group> {
    map id | id in groups && id in ids :: groups[id]
  }

  /** The cache without the `k` groups that have been there longest. */
  ghost function Drop(c: Cache, k: nat): Cache
    requires k <= |c.arrival|
  {
    Cache(Keep(c.groups, c.arrival[k..]), c.arrival[k..], BytesOf(c.groups, c.arrival[k..]))
  }

  /** The cache with one more Object, in its own group or in a new last one. */
  ghost function Add(c: Cache, o: Object): Cache {
    var group := if o.group in c.groups then c.groups[o.group] else Group(map[], 0);
    Cache(
      c.groups[o.group := Group(group.objects[o.objectId := o], group.bytes + o.cost)],
      if o.group in c.groups then c.arrival else c.arrival + [o.group],
      c.bytes + o.cost)
  }

  // ---------------------------------------------------------------- which Objects are kept

  /** The Objects alone, by group and Object ID. */
  function StoreOf(groups: map<nat, Group>): Store {
    map id | id in groups :: groups[id].objects
  }

  /** `o` is in as it is, at a Location that was free; whole other groups may be gone, and nothing else changed. */
  ghost predicate Stores(before: Store, after: Store, o: Object) {
    && !Retained(before, o.Location())
    && o.group in after && after[o.group] == (if o.group in before then before[o.group] else map[])[o.objectId := o]
    && forall id :: id in after && id != o.group ==> id in before && after[id] == before[id]
  }

  /** Dropping groups that are older than `o`'s own and adding `o` keeps `o` itself and every Object of the rest. */
  lemma InsertStores(c: Cache, o: Object, k: nat)
    requires CacheValid(c) && !Contains(c, o) && k <= OlderGroups(c.arrival, o.group)
    ensures Stores(StoreOf(c.groups), StoreOf(Add(Drop(c, k), o).groups), o)
  {
    hide CacheValid;
    hide BytesOf;
    hide Keep;
    if o.group in c.groups {
      ListedGroups(c);
      StillListed(c.arrival, o.group, k);
    }
    KeepHas(c.groups, c.arrival[k..]);
    StoreHas(c.groups);
    StoreHas(Add(Drop(c, k), o).groups);
  }

  lemma ListedGroups(c: Cache)
    requires CacheValid(c)
    ensures forall id :: id in c.groups ==> id in c.arrival
  {
  }

  lemma KeepHas(groups: map<nat, Group>, ids: seq<nat>)
    ensures forall id :: id in Keep(groups, ids) <==> id in groups && id in ids
    ensures forall id :: id in Keep(groups, ids) ==> Keep(groups, ids)[id] == groups[id]
  {
  }

  lemma StoreHas(groups: map<nat, Group>)
    ensures forall id :: id in StoreOf(groups) <==> id in groups
    ensures forall id :: id in groups ==> StoreOf(groups)[id] == groups[id].objects
  {
  }

  // ---------------------------------------------------------------- facts about sums and drops

  lemma {:induction false} BytesSplit(groups: map<nat, Group>, ids: seq<nat>, k: nat)
    requires k <= |ids|
    ensures BytesOf(groups, ids) == BytesOf(groups, ids[..k]) + BytesOf(groups, ids[k..])
  {
    if k > 0 {
      BytesSplit(groups, ids[1..], k - 1);
      assert ids[..k] == [ids[0]] + ids[1..][..k - 1];
      assert ids[1..][k - 1..] == ids[k..];
    } else {
      assert ids[0..] == ids;
    }
  }

  lemma {:induction false} BytesFrame(a: map<nat, Group>, b: map<nat, Group>, ids: seq<nat>)
    requires forall i :: 0 <= i < |ids| ==> BytesIn(a, ids[i]) == BytesIn(b, ids[i])
    ensures BytesOf(a, ids) == BytesOf(b, ids)
  {
    if ids != [] {
      BytesFrame(a, b, ids[1..]);
    }
  }

  lemma {:induction false} DistinctSize(ids: seq<nat>)
    requires Distinct(ids)
    ensures |Ids(ids)| == |ids|
  {
    if ids != [] {
      var n := |ids| - 1;
      DistinctSize(ids[..n]);
      assert ids[n] !in Ids(ids[..n]);
      assert Ids(ids) == Ids(ids[..n]) + {ids[n]};
    }
  }

  /** The group count is the length of the arrival list. */
  lemma CountIsArrivals(c: Cache)
    requires CacheValid(c)
    ensures |c.groups| == |c.arrival|
  {
    DistinctSize(c.arrival);
    assert c.groups.Keys == Ids(c.arrival);
  }

  lemma DropListed(c: Cache, k: nat)
    requires Listed(c) && k <= |c.arrival|
    ensures Listed(Drop(c, k))
  {
    hide BytesOf;
  }

  lemma DropValid(c: Cache, k: nat)
    requires CacheValid(c) && k <= |c.arrival|
    ensures CacheValid(Drop(c, k)) && Drop(c, k).bytes + BytesOf(c.groups, c.arrival[..k]) == c.bytes
  {
    hide GroupValid;
    hide Listed;
    DropListed(c, k);
    BytesSplit(c.groups, c.arrival, k);
    BytesFrame(c.groups, Drop(c, k).groups, c.arrival[k..]) by {
      assert forall i :: 0 <= i < |c.arrival[k..]| ==> c.arrival[k..][i] in c.arrival[k..];
    }
  }

  lemma DropNothing(c: Cache)
    requires CacheValid(c)
    ensures Drop(c, 0) == c && c.arrival[..0] == []
  {
    assert c.arrival[0..] == c.arrival;
    assert Keep(c.groups, c.arrival) == c.groups;
  }

  lemma DropOneMore(c: Cache, k: nat)
    requires k < |c.arrival|
    ensures Drop(Drop(c, k), 1) == Drop(c, k + 1)
    ensures BytesOf(c.groups, c.arrival[..k + 1]) == BytesOf(c.groups, c.arrival[..k]) + BytesIn(c.groups, c.arrival[k])
  {
    var rest := c.arrival[k..];
    assert rest[1..] == c.arrival[k + 1..];
    BytesOneMore(c.groups, c.arrival, k);
    BytesFrame(Keep(c.groups, rest), c.groups, rest[1..]);
    assert Keep(Keep(c.groups, rest), rest[1..]) == Keep(c.groups, rest[1..]);
  }

  lemma BytesOneMore(groups: map<nat, Group>, ids: seq<nat>, k: nat)
    requires k < |ids|
    ensures BytesOf(groups, ids[..k + 1]) == BytesOf(groups, ids[..k]) + BytesIn(groups, ids[k])
  {
    BytesSplit(groups, ids[..k + 1], k);
    assert ids[..k + 1][..k] == ids[..k] && ids[..k + 1][k..] == [ids[k]];
  }

  lemma AddValid(c: Cache, o: Object)
    requires CacheValid(c) && !Contains(c, o) && o.Location().Valid()
    ensures CacheValid(Add(c, o))
  {
    AddListed(c, o);
    AddedBytes(c, o);
    AddedGroupValid(c, o);
    var d := Add(c, o);
    forall id | id in d.groups
      ensures GroupValid(id, d.groups[id])
    {
      assert id != o.group ==> d.groups[id] == c.groups[id];
    }
  }

  lemma AddListed(c: Cache, o: Object)
    requires Listed(c)
    ensures Listed(Add(c, o))
  {
  }

  lemma AddedBytes(c: Cache, o: Object)
    requires Listed(c)
    ensures BytesOf(Add(c, o).groups, Add(c, o).arrival) == BytesOf(c.groups, c.arrival) + o.cost
  {
    var d := Add(c, o);
    if o.group in c.groups {
      BytesAtOne(c.groups, d.groups, c.arrival, o.group, o.cost);
    } else {
      assert d.arrival[..|c.arrival|] == c.arrival && d.arrival[..|c.arrival| + 1] == d.arrival;
      BytesOneMore(d.groups, d.arrival, |c.arrival|);
      BytesFrame(c.groups, d.groups, c.arrival);
    }
  }

  lemma AddedGroupValid(c: Cache, o: Object)
    requires o.group in c.groups ==> GroupValid(o.group, c.groups[o.group])
    requires !Contains(c, o) && o.Location().Valid()
    ensures GroupValid(o.group, Add(c, o).groups[o.group])
  {
    var before := if o.group in c.groups then c.groups[o.group].objects else map[];
    TotalUpdate(Costs(before), o.objectId, o.cost);
    assert Costs(before[o.objectId := o]) == Costs(before)[o.objectId := o.cost];
  }

  lemma {:induction false} BytesAtOne(a: map<nat, Group>, b: map<nat, Group>, ids: seq<nat>, id: nat, more: nat)
    requires Distinct(ids) && id in ids
    requires forall i :: 0 <= i < |ids| ==> BytesIn(b, ids[i]) == BytesIn(a, ids[i]) + if ids[i] == id then more else 0
    ensures BytesOf(b, ids) == BytesOf(a, ids) + more
  {
    if ids[0] == id {
      BytesFrame(a, b, ids[1..]);
    } else {
      BytesAtOne(a, b, ids[1..], id, more);
    }
  }

  /** Dropping older groups and adding an Object commute while the Object's group stays. */
  lemma DropAfterAdd(c: Cache, o: Object, k: nat)
    requires CacheValid(c) && k <= OlderGroups(c.arrival, o.group)
    ensures k <= |Add(c, o).arrival|
    ensures Drop(Add(c, o), k) == Add(Drop(c, k), o)
    ensures BytesOf(Add(c, o).groups, Add(c, o).arrival[..k]) == BytesOf(c.groups, c.arrival[..k])
  {
    BytesAfterAdd(c, o, k);
    if o.group in c.groups {
      StillListed(c.arrival, o.group, k);
      KeepAfterAdd(c, o, k);
    } else {
      KeepAfterAddNew(c, o, k);
    }
  }

  lemma BytesAfterAdd(c: Cache, o: Object, k: nat)
    requires Listed(c) && k <= OlderGroups(c.arrival, o.group)
    ensures BytesOf(Add(c, o).groups, Add(c, o).arrival[..k]) == BytesOf(c.groups, c.arrival[..k])
    ensures Drop(Add(c, o), k).bytes == Drop(c, k).bytes + o.cost
  {
    var d := Add(c, o);
    assert d.arrival[..k] == c.arrival[..k];
    OlderGroupsIsPosition(c.arrival, o.group);
    BytesFrame(c.groups, d.groups, c.arrival[..k]);
    BytesSplit(c.groups, c.arrival, k);
    BytesSplit(d.groups, d.arrival, k);
    AddedBytes(c, o);
  }

  lemma KeepAfterAdd(c: Cache, o: Object, k: nat)
    requires k <= |c.arrival| && o.group in c.groups && o.group in c.arrival[k..]
    ensures Drop(Add(c, o), k).arrival == Add(Drop(c, k), o).arrival
    ensures Drop(Add(c, o), k).groups == Add(Drop(c, k), o).groups
  {
    var group := Add(c, o).groups[o.group];
    assert Add(c, o).arrival[k..] == c.arrival[k..];
    assert Add(Drop(c, k), o).groups == Keep(c.groups, c.arrival[k..])[o.group := group];
    KeepUpdate(c.groups, c.arrival[k..], o.group, group);
  }

  lemma KeepAfterAddNew(c: Cache, o: Object, k: nat)
    requires k <= |c.arrival| && o.group !in c.groups
    ensures Drop(Add(c, o), k).arrival == Add(Drop(c, k), o).arrival
    ensures Drop(Add(c, o), k).groups == Add(Drop(c, k), o).groups
  {
    var group := Add(c, o).groups[o.group];
    assert Add(c, o).arrival[k..] == c.arrival[k..] + [o.group];
    assert Add(Drop(c, k), o).groups == Keep(c.groups, c.arrival[k..])[o.group := group];
    KeepNew(c.groups, c.arrival[k..], o.group, group);
  }

  lemma KeepNew(groups: map<nat, Group>, ids: seq<nat>, id: nat, group: Group)
    requires id !in groups
    ensures Keep(groups[id := group], ids + [id]) == Keep(groups, ids)[id := group]
  {
  }

  lemma StillListed(arrival: seq<nat>, group: nat, k: nat)
    requires group in arrival && k <= OlderGroups(arrival, group)
    ensures group in arrival[k..]
  {
    OlderGroupsIsPosition(arrival, group);
    assert arrival[k..][OlderGroups(arrival, group) - k] == group;
  }

  lemma KeepUpdate(groups: map<nat, Group>, ids: seq<nat>, id: nat, group: Group)
    requires id in ids
    ensures Keep(groups[id := group], ids) == Keep(groups, ids)[id := group]
  {
  }

  /** Dropping the oldest group keeps every other group older than an arrived Object's group. */
  lemma OlderAfterDrop(arrival: seq<nat>, group: nat, k: nat)
    requires k <= OlderGroups(arrival, group)
    ensures OlderGroups(arrival[k..], group) == OlderGroups(arrival, group) - k
  {
    if k > 0 {
      OlderAfterDrop(arrival[1..], group, k - 1);
      assert arrival[1..][k - 1..] == arrival[k..];
    } else {
      assert arrival[0..] == arrival;
    }
  }

  // ---------------------------------------------------------------- what an insert must do

  /** Dropping the `k` oldest groups, none of them `o`'s own or later, makes room for its bytes. */
  ghost predicate BytesFit(policy: Policy, c: Cache, used: nat, o: Object, k: nat) {
    && k <= OlderGroups(c.arrival, o.group)
    && BytesOf(c.groups, c.arrival[k..]) + o.cost <= policy.trackBytes
    && used - BytesOf(c.groups, c.arrival[..k]) + o.cost <= policy.totalBytes
  }

  /** One when `o` opens a group, none when its group is retained. */
  function NewGroups(c: Cache, o: Object): nat {
    if o.group in c.groups then 0 else 1
  }

  /** Dropping the `k` oldest groups makes room for `o` within every limit. */
  ghost predicate MakesRoom(policy: Policy, c: Cache, used: nat, o: Object, k: nat) {
    BytesFit(policy, c, used, o, k) && |c.arrival| - k + NewGroups(c, o) <= policy.groups
  }

  /** The fewest oldest groups whose loss makes room. */
  ghost predicate MakesRoomLeast(policy: Policy, c: Cache, used: nat, o: Object, k: nat) {
    MakesRoom(policy, c, used, o, k) && forall j: nat :: j < k ==> !MakesRoom(policy, c, used, o, j)
  }

  /** All or nothing, and nothing is dropped that need not be. */
  ghost predicate InsertMeets(policy: Policy, c: Cache, used: nat, o: Object, c': Cache, used': nat) {
    if Contains(c, o) || (forall k: nat :: !MakesRoom(policy, c, used, o, k))
    then c' == c && used' == used
    else exists k: nat ::
        && MakesRoomLeast(policy, c, used, o, k)
        && c' == Add(Drop(c, k), o)
        && used' == used - BytesOf(c.groups, c.arrival[..k]) + o.cost
  }

  /** Room can be made at all exactly when dropping every older group leaves the byte limits met. */
  lemma RoomExactlyWhenOlderSuffice(policy: Policy, c: Cache, used: nat, o: Object)
    requires CacheValid(c) && WithinPolicy(policy, c)
    ensures (exists k: nat :: MakesRoom(policy, c, used, o, k)) <==>
            BytesFit(policy, c, used, o, OlderGroups(c.arrival, o.group))
  {
    var older := OlderGroups(c.arrival, o.group);
    forall k: nat | BytesFit(policy, c, used, o, k)
      ensures BytesFit(policy, c, used, o, older)
    {
      DropMoreKeepsLess(c, k, older);
    }
    OlderGroupsIsPosition(c.arrival, o.group);
    assert MakesRoom(policy, c, used, o, older) <==> BytesFit(policy, c, used, o, older);
  }

  /** The check made before anything is evicted decides whether room can be made. */
  lemma FirstCheckDecides(policy: Policy, c: Cache, used: nat, o: Object)
    requires CacheValid(c) && WithinPolicy(policy, c) && c.bytes <= used
    ensures var older := OlderGroups(c.arrival, o.group);
            var olderBytes := BytesOf(c.groups, c.arrival[..older]);
            && olderBytes <= c.bytes
            && (BytesFit(policy, c, used, o, older) <==>
                c.bytes - olderBytes + o.cost <= policy.trackBytes && used - olderBytes + o.cost <= policy.totalBytes)
            && (BytesFit(policy, c, used, o, older) <==> exists k: nat :: MakesRoom(policy, c, used, o, k))
  {
    hide GroupValid;
    BytesSplit(c.groups, c.arrival, OlderGroups(c.arrival, o.group));
    RoomExactlyWhenOlderSuffice(policy, c, used, o);
  }

  lemma RoomIsOlder(policy: Policy, c: Cache, used: nat, o: Object, k: nat)
    requires MakesRoom(policy, c, used, o, k)
    ensures k <= OlderGroups(c.arrival, o.group)
  {
  }

  /** What a successful insert leaves is within the policy, and counted. */
  lemma InsertedWithinPolicy(policy: Policy, c: Cache, used: nat, o: Object, k: nat)
    requires CacheValid(c) && !Contains(c, o) && o.Location().Valid() && c.bytes <= used
    requires MakesRoom(policy, c, used, o, k)
    ensures CacheValid(Add(Drop(c, k), o)) && WithinPolicy(policy, Add(Drop(c, k), o))
    ensures Add(Drop(c, k), o).bytes <= used - BytesOf(c.groups, c.arrival[..k]) + o.cost <= policy.totalBytes
  {
    hide CacheValid;
    KeptValid(c, o, k);
    KeptCount(c, o, k);
  }

  /** Dropping more of the older groups never takes room away. */
  lemma MoreStillFits(policy: Policy, c: Cache, used: nat, o: Object, j: nat, k: nat)
    requires j <= k <= OlderGroups(c.arrival, o.group) && MakesRoom(policy, c, used, o, j)
    ensures MakesRoom(policy, c, used, o, k)
  {
    DropMoreKeepsLess(c, j, k);
  }

  lemma LeastFromPrevious(policy: Policy, c: Cache, used: nat, o: Object, k: nat)
    requires MakesRoom(policy, c, used, o, k)
    requires k == 0 || !MakesRoom(policy, c, used, o, k - 1)
    ensures MakesRoomLeast(policy, c, used, o, k)
  {
    forall j: nat | j < k
      ensures !MakesRoom(policy, c, used, o, j)
    {
      if MakesRoom(policy, c, used, o, j) {
        MoreStillFits(policy, c, used, o, j, k - 1);
      }
    }
  }

  /** One group too many: the Object's group is new, and an older group can go instead of it. */
  lemma TooManyGroups(policy: Policy, c: Cache, used: nat, o: Object, k: nat)
    requires Listed(c) && |c.arrival| <= policy.groups
    requires BytesFit(policy, c, used, o, k) && policy.groups < |c.arrival| - k + NewGroups(c, o)
    ensures k < OlderGroups(c.arrival, o.group)
    ensures BytesFit(policy, c, used, o, k + 1)
  {
    OlderGroupsIsPosition(c.arrival, o.group);
    DropMoreKeepsLess(c, k, k + 1);
  }

  /** The first group of a cache is the one a single drop removes. */
  lemma DropFirst(c: Cache)
    requires Listed(c) && c.arrival != []
    ensures Drop(c, 1).groups == c.groups - {c.arrival[0]}
    ensures BytesOf(c.groups, c.arrival[..1]) == BytesIn(c.groups, c.arrival[0])
  {
    assert c.arrival[..1] == [c.arrival[0]];
    KeepRest(c.groups, c.arrival);
  }

  lemma KeepRest(groups: map<nat, Group>, ids: seq<nat>)
    requires ids != [] && Distinct(ids) && forall id :: id in groups ==> id in ids
    ensures Keep(groups, ids[1..]) == groups - {ids[0]}
  {
    assert ids == [ids[0]] + ids[1..];
  }

  /** One eviction after `k` of them. */
  lemma EvictStep(c: Cache, k: nat)
    requires CacheValid(c) && k < |c.arrival|
    ensures CacheValid(Drop(c, k)) && Drop(Drop(c, k), 1) == Drop(c, k + 1)
    ensures Drop(c, k).bytes + BytesOf(c.groups, c.arrival[..k]) == c.bytes
    ensures BytesOf(c.groups, c.arrival[..k + 1])
         == BytesOf(c.groups, c.arrival[..k]) + BytesIn(Drop(c, k).groups, Drop(c, k).arrival[0])
  {
    DropValid(c, k);
    DropOneMore(c, k);
    assert c.arrival[k] in c.arrival[k..];
  }

  /** One eviction after `k` of them and the addition of `o`. */
  lemma TrimStep(c: Cache, o: Object, k: nat)
    requires CacheValid(c) && !Contains(c, o) && o.Location().Valid() && k < OlderGroups(c.arrival, o.group)
    ensures Drop(Add(Drop(c, k), o), 1) == Add(Drop(c, k + 1), o)
    ensures BytesOf(c.groups, c.arrival[..k + 1])
         == BytesOf(c.groups, c.arrival[..k]) + BytesIn(Add(Drop(c, k), o).groups, Add(Drop(c, k), o).arrival[0])
  {
    EvictStep(c, k);
    OlderAfterDrop(c.arrival, o.group, k);
    DropAfterAdd(Drop(c, k), o, 1);
    OlderGroupsIsPosition(c.arrival, o.group);
  }

  lemma KeptValid(c: Cache, o: Object, k: nat)
    requires CacheValid(c) && !Contains(c, o) && o.Location().Valid() && k <= |c.arrival|
    ensures CacheValid(Add(Drop(c, k), o)) && Add(Drop(c, k), o).bytes == Drop(c, k).bytes + o.cost
    ensures Drop(c, k).bytes + BytesOf(c.groups, c.arrival[..k]) == c.bytes
  {
    DropValid(c, k);
    AddValid(Drop(c, k), o);
  }

  lemma KeptCount(c: Cache, o: Object, k: nat)
    requires CacheValid(c) && !Contains(c, o) && o.Location().Valid() && k <= |c.arrival|
    requires k <= OlderGroups(c.arrival, o.group)
    ensures |Add(Drop(c, k), o).groups| == |Add(Drop(c, k), o).arrival| == |c.arrival| - k + NewGroups(c, o)
  {
    KeptValid(c, o, k);
    if o.group in c.groups {
      StillListed(c.arrival, o.group, k);
    }
    CountIsArrivals(Add(Drop(c, k), o));
  }

  lemma DropMoreKeepsLess(c: Cache, j: nat, k: nat)
    requires j <= k <= |c.arrival|
    ensures BytesOf(c.groups, c.arrival[k..]) <= BytesOf(c.groups, c.arrival[j..])
    ensures BytesOf(c.groups, c.arrival[..j]) <= BytesOf(c.groups, c.arrival[..k])
  {
    BytesSplit(c.groups, c.arrival[..k], j);
    assert c.arrival[..k][..j] == c.arrival[..j];
    BytesSplit(c.groups, c.arrival[j..], k - j);
    assert c.arrival[j..][k - j..] == c.arrival[k..];
  }
}
