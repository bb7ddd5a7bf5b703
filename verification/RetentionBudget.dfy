/**
 * The byte budget shared by all retained tracks, as a step system. A track's own lock makes its
 * inserts run one at a time; tracks interleave wherever one of them reads or updates the shared
 * counter, which is one atomic step each.
 */
module RetentionBudget {
  import opened Locations
  import opened FetchPlanning
  import opened RetainedGroups
  import opened Sums

  /** The counter is a machine word; `release` subtracts modulo this. */
  const USIZE: nat := 0x1_0000_0000_0000_0000

  type TrackId = nat

  /** Where a track is in `insert` or in being dropped. */
  datatype Phase =
    | Idle
    | Searching(o: Object, older: nat)
    | Releasing(o: Object, older: nat, freed: nat)
    | Reserved(o: Object)
    | Trimming(group: nat)
    | TrimReleasing(group: nat, freed: nat)
    | Dropped

  datatype Track = Track(cache: Cache, phase: Phase)

  datatype State = State(used: nat, tracks: map<TrackId, Track>)

  function WrappingSub(a: nat, b: nat): nat {
    (a - b) % USIZE
  }

  ghost predicate Fits(policy: Policy, used: nat, track: Track, o: Object) {
    track.cache.bytes + o.cost <= policy.trackBytes && used + o.cost <= policy.totalBytes
  }

  /** A new Object and the number of groups that arrived before its own. */
  ghost predicate Pending(cache: Cache, o: Object, older: nat) {
    o.Location().Valid() && !Contains(cache, o) && older == OlderGroups(cache.arrival, o.group)
  }

  /** The check made before anything is evicted, against the counter as it is at that moment. */
  ghost predicate MayFit(policy: Policy, used: nat, cache: Cache, o: Object) {
    var olderBytes := BytesOf(cache.groups, cache.arrival[..OlderGroups(cache.arrival, o.group)]);
    && cache.bytes - olderBytes + o.cost <= policy.trackBytes
    && (if olderBytes <= used then used - olderBytes else 0) + o.cost <= policy.totalBytes
  }

  /** One atomic step of one track, with its effect on the shared counter. */
  ghost predicate TrackStep(policy: Policy, used: nat, track: Track, used': nat, track': Track) {
    var cache := track.cache;
    match track.phase
    case Idle =>
      && used' == used && track'.cache == cache
      && (track'.phase.Dropped?
          || (track'.phase.Searching? && Pending(cache, track'.phase.o, track'.phase.older)
              && MayFit(policy, used, cache, track'.phase.o)))
    case Searching(o, older) =>
      if Fits(policy, used, track, o) then used' == used + o.cost && track' == Track(cache, Reserved(o))
      else if older == 0 then used' == used && track' == Track(cache, Idle)
      else
        && used' == used && cache.arrival != []
        && track' == Track(Drop(cache, 1), Releasing(o, older - 1, BytesIn(cache.groups, cache.arrival[0])))
    case Releasing(o, older, freed) =>
      used' == WrappingSub(used, freed) && track' == Track(cache, Searching(o, older))
    case Reserved(o) =>
      used' == used && track' == Track(Add(cache, o), Trimming(o.group))
    case Trimming(group) =>
      if |cache.groups| <= policy.groups then used' == used && track' == Track(cache, Idle)
      else
        && used' == used && cache.arrival != []
        && track' == Track(Drop(cache, 1), TrimReleasing(group, BytesIn(cache.groups, cache.arrival[0])))
    case TrimReleasing(group, freed) =>
      used' == WrappingSub(used, freed) && track' == Track(cache, Trimming(group))
    case Dropped => false
  }

  /** A track opens, moves, or is gone with its bytes given back. */
  ghost predicate Next(policy: Policy, s: State, s': State, t: TrackId) {
    if t !in s.tracks then s' == State(s.used, s.tracks[t := Track(EMPTY, Idle)])
    else if s.tracks[t].phase.Dropped? then
      s' == State(WrappingSub(s.used, s.tracks[t].cache.bytes), s.tracks - {t})
    else
      && t in s'.tracks
      && s'.tracks == s.tracks[t := s'.tracks[t]]
      && TrackStep(policy, s.used, s.tracks[t], s'.used, s'.tracks[t])
  }

  /** A run from the empty registry; `who[i]` takes step `i`. */
  ghost predicate IsRun(policy: Policy, states: seq<State>, who: seq<TrackId>) {
    && |states| == |who| + 1
    && states[0] == State(0, map[])
    && forall i :: 0 <= i < |who| ==> Next(policy, states[i], states[i + 1], who[i])
  }

  // ---------------------------------------------------------------- what every step keeps

  /**
   * The part of the shared counter a track answers for: its bytes, a reservation not yet stored, an
   * eviction not yet returned.
   */
  ghost function Charge(track: Track): nat {
    track.cache.bytes +
    match track.phase
    case Releasing(_, _, freed) => freed
    case TrimReleasing(_, freed) => freed
    case Reserved(o) => o.cost
    case _ => 0
  }

  ghost function Charges(tracks: map<TrackId, Track>): map<TrackId, nat> {
    map t | t in tracks :: Charge(tracks[t])
  }

  /** The group a finished reservation stored into is still there, and only it can be one too many. */
  ghost predicate KeepsOwnGroup(policy: Policy, cache: Cache, group: nat) {
    && group in cache.groups
    && |cache.arrival| <= policy.groups + 1
    && (|cache.arrival| == policy.groups + 1 ==> cache.arrival[policy.groups] == group)
  }

  ghost predicate TrackInv(policy: Policy, track: Track) {
    && CacheValid(track.cache)
    && track.cache.bytes <= policy.trackBytes
    && match track.phase
       case Trimming(group) => KeepsOwnGroup(policy, track.cache, group)
       case TrimReleasing(group, _) => KeepsOwnGroup(policy, track.cache, group)
       case Searching(o, older) => |track.cache.arrival| <= policy.groups && Pending(track.cache, o, older)
       case Releasing(o, older, _) => |track.cache.arrival| <= policy.groups && Pending(track.cache, o, older)
       case Reserved(o) =>
         && |track.cache.arrival| <= policy.groups
         && o.Location().Valid() && !Contains(track.cache, o) && track.cache.bytes + o.cost <= policy.trackBytes
       case _ => |track.cache.arrival| <= policy.groups
  }

  /** The counter is exactly the tracks' charges, within the total, and every track keeps its own limits. */
  ghost predicate Inv(policy: Policy, s: State) {
    && s.used == Total(Charges(s.tracks))
    && s.used <= policy.totalBytes
    && forall t :: t in s.tracks ==> TrackInv(policy, s.tracks[t])
  }

  /** The oldest group leaves the cache and its bytes with it. */
  lemma EvictionMovesBytes(cache: Cache)
    requires CacheValid(cache) && cache.arrival != []
    ensures CacheValid(Drop(cache, 1))
    ensures Drop(cache, 1).bytes + BytesIn(cache.groups, cache.arrival[0]) == cache.bytes
    ensures Drop(cache, 1).groups == cache.groups - {cache.arrival[0]}
  {
    DropValid(cache, 1);
    DropFirst(cache);
  }

  lemma SearchStepSafe(policy: Policy, used: nat, track: Track, used': nat, track': Track)
    requires TrackInv(policy, track) && track.phase.Searching?
    requires TrackStep(policy, used, track, used', track')
    ensures TrackInv(policy, track') && used' + Charge(track) == used + Charge(track')
    ensures used <= policy.totalBytes ==> used' <= policy.totalBytes
  {
    hide CacheValid;
    hide Drop;
    var cache, o := track.cache, track.phase.o;
    if track'.phase.Releasing? {
      EvictionMovesBytes(cache);
      OlderAfterDrop(cache.arrival, o.group, 1);
      DropArrival(cache, 1);
    }
  }

  lemma DropArrival(cache: Cache, k: nat)
    requires k <= |cache.arrival|
    ensures Drop(cache, k).arrival == cache.arrival[k..]
  {
  }

  lemma StoreStepSafe(policy: Policy, track: Track, o: Object)
    requires TrackInv(policy, track) && track.phase == Reserved(o)
    ensures TrackInv(policy, Track(Add(track.cache, o), Trimming(o.group)))
    ensures Charge(Track(Add(track.cache, o), Trimming(o.group))) == Charge(track)
  {
    hide CacheValid;
    AddValid(track.cache, o);
  }

  lemma OldestIsNotNewest(cache: Cache)
    requires CacheValid(cache)
    ensures forall i :: 0 < i < |cache.arrival| ==> cache.arrival[0] != cache.arrival[i]
  {
  }

  lemma TrimStepSafe(policy: Policy, track: Track)
    requires TrackInv(policy, track) && track.phase.Trimming?
    ensures |track.cache.groups| <= policy.groups ==> TrackInv(policy, Track(track.cache, Idle))
    ensures policy.groups < |track.cache.groups| ==>
              && track.cache.arrival != []
              && var freed := BytesIn(track.cache.groups, track.cache.arrival[0]);
                 var after := Track(Drop(track.cache, 1), TrimReleasing(track.phase.group, freed));
                 TrackInv(policy, after) && Charge(after) == Charge(track)
  {
    hide CacheValid;
    hide Drop;
    CountIsArrivals(track.cache);
    OldestIsNotNewest(track.cache);
    if policy.groups < |track.cache.groups| {
      EvictionMovesBytes(track.cache);
      DropArrival(track.cache, 1);
    }
  }

  /** One step keeps a track consistent and moves the counter by exactly what its charge moves. */
  lemma TrackStepSafe(policy: Policy, used: nat, track: Track, used': nat, track': Track)
    requires policy.totalBytes < USIZE
    requires TrackInv(policy, track) && Charge(track) <= used <= policy.totalBytes
    requires TrackStep(policy, used, track, used', track')
    ensures TrackInv(policy, track')
    ensures used' + Charge(track) == used + Charge(track')
    ensures used' <= policy.totalBytes
  {
    hide CacheValid;
    hide Drop;
    hide Add;
    match track.phase
    case Searching(o, older) => SearchStepSafe(policy, used, track, used', track');
    case Reserved(o) => StoreStepSafe(policy, track, o);
    case Trimming(group) => TrimStepSafe(policy, track);
    case _ =>
  }

  lemma ChargeWithinTotal(tracks: map<TrackId, Track>, t: TrackId)
    requires t in tracks
    ensures Charge(tracks[t]) <= Total(Charges(tracks))
  {
    TotalWithout(Charges(tracks), t);
  }

  /** Every step of every track, in any interleaving, keeps the invariant. */
  lemma NextSafe(policy: Policy, s: State, s': State, t: TrackId)
    requires policy.totalBytes < USIZE
    requires Inv(policy, s) && Next(policy, s, s', t)
    ensures Inv(policy, s')
  {
    hide TrackInv;
    hide TrackStep;
    var before, after := Charges(s.tracks), Charges(s'.tracks);
    if t !in s.tracks {
      EmptyTrackInv(policy);
      TotalUpdate(before, t, 0);
      assert after == before[t := 0];
    } else {
      ChargeWithinTotal(s.tracks, t);
      if s.tracks[t].phase.Dropped? {
        TotalWithout(before, t);
        assert after == before - {t};
      } else {
        TrackStepSafe(policy, s.used, s.tracks[t], s'.used, s'.tracks[t]);
        TotalUpdate(before, t, Charge(s'.tracks[t]));
        assert after == before[t := Charge(s'.tracks[t])];
      }
    }
  }

  lemma EmptyTrackInv(policy: Policy)
    ensures TrackInv(policy, Track(EMPTY, Idle))
  {
  }

  /**
   * Conservation over whole runs: in every state of every interleaving the counter equals the sum
   * of all charges and stays within the total, and every track keeps its own limits.
   */
  lemma {:induction false} RunConserves(policy: Policy, states: seq<State>, who: seq<TrackId>)
    requires policy.totalBytes < USIZE
    requires IsRun(policy, states, who)
    ensures forall i :: 0 <= i < |states| ==> Inv(policy, states[i])
  {
    if who == [] {
      assert Charges(map[]) == map[];
    } else {
      var n := |who| - 1;
      assert IsRun(policy, states[..n + 1], who[..n]);
      RunConserves(policy, states[..n + 1], who[..n]);
      assert Inv(policy, states[..n + 1][n]);
      NextSafe(policy, states[n], states[n + 1], who[n]);
      assert forall i :: 0 <= i <= n ==> states[..n + 1][i] == states[i];
    }
  }

  lemma WrappingSubExact(used: nat, charge: nat)
    requires charge <= used < USIZE
    ensures forall owed: nat :: owed <= charge ==> WrappingSub(used, owed) == used - owed
  {
  }

  /** No release ever wraps the counter: what is given back was counted. */
  lemma ReleaseNeverWraps(policy: Policy, states: seq<State>, who: seq<TrackId>, i: nat, t: TrackId)
    requires policy.totalBytes < USIZE
    requires IsRun(policy, states, who) && i < |states| && t in states[i].tracks
    ensures var track := states[i].tracks[t];
            var owed := match track.phase
                        case Releasing(_, _, freed) => freed
                        case TrimReleasing(_, freed) => freed
                        case Dropped => track.cache.bytes
                        case _ => 0;
            owed <= states[i].used && WrappingSub(states[i].used, owed) == states[i].used - owed
  {
    hide TrackInv;
    hide IsRun;
    RunConserves(policy, states, who);
    ChargeWithinTotal(states[i].tracks, t);
    WrappingSubExact(states[i].used, Charge(states[i].tracks[t]));
  }

  ghost function RetainedBytes(tracks: map<TrackId, Track>): map<TrackId, nat> {
    map t | t in tracks :: tracks[t].cache.bytes
  }

  /** With every track idle, the counter is exactly the bytes retained. */
  lemma IdleCounterIsRetainedBytes(policy: Policy, s: State)
    requires Inv(policy, s) && forall t :: t in s.tracks ==> s.tracks[t].phase.Idle?
    ensures s.used == Total(RetainedBytes(s.tracks))
    ensures forall t :: t in s.tracks ==> WithinPolicy(policy, s.tracks[t].cache)
  {
    hide CacheValid;
    assert Charges(s.tracks) == RetainedBytes(s.tracks);
  }
}
