/**
 * One insert among the inserts of other tracks: when it loses older groups without keeping its
 * Object. An insert whose first check fails takes no step at all and changes nothing.
 */
module RetentionRace {
  import opened Locations
  import opened FetchPlanning
  import opened RetainedGroups
  import opened RetentionBudget
  import opened Sums

  /** What all other tracks hold of the shared budget: bytes, reservations and evictions not yet returned. */
  ghost function OthersCharge(s: State, t: TrackId): nat {
    Total(Charges(s.tracks - {t}))
  }

  /** Track `t` inserts `o`: its check passes in step `a`, and state `e` is the first with the track idle again. */
  ghost predicate Inserts(
      policy: Policy, states: seq<State>, who: seq<TrackId>, t: TrackId, a: nat, e: nat, o: Object) {
    && IsRun(policy, states, who) && a < e < |states| && who[a] == t
    && (forall i :: a <= i <= e ==> t in states[i].tracks)
    && states[a].tracks[t].phase.Idle? && states[e].tracks[t].phase.Idle?
    && (forall i :: a < i < e ==> !states[i].tracks[t].phase.Idle?)
    && states[a + 1].tracks[t].phase.Searching? && states[a + 1].tracks[t].phase.o == o
  }

  /** In this state `o` fits the track, or the budget the others leave, only if more is evicted. */
  ghost predicate Exceeds(policy: Policy, s: State, t: TrackId, o: Object)
    requires t in s.tracks
  {
    var bytes := s.tracks[t].cache.bytes;
    policy.trackBytes < bytes + o.cost || policy.totalBytes < OthersCharge(s, t) + bytes + o.cost
  }

  /** Step `j` is an attempt of `t` to reserve. */
  ghost predicate Attempt(states: seq<State>, who: seq<TrackId>, t: TrackId, j: nat)
    requires j < |who| && j < |states|
  {
    who[j] == t && t in states[j].tracks && states[j].tracks[t].phase.Searching?
  }

  /** Every attempt between the check and step `i` came when `o` did not fit. */
  ghost predicate AllRefused(
      policy: Policy, states: seq<State>, who: seq<TrackId>, t: TrackId, a: nat, i: nat, o: Object)
    requires i <= |who| < |states|
  {
    forall j :: a < j < i && Attempt(states, who, t, j) ==> Exceeds(policy, states[j], t, o)
  }

  /** Where an insert into `c` stands: `refused` tells of its attempts so far, `grew` of the other tracks. */
  ghost predicate Standing(track: Track, c: Cache, o: Object, refused: bool, grew: bool) {
    match track.phase
    case Searching(x, left) => x == o && Shrunk(track.cache, c, o, left) && refused
    case Releasing(x, left, _) => x == o && Shrunk(track.cache, c, o, left) && refused
    case Reserved(x) => x == o && !refused
    case Trimming(group) => group == o.group && Contains(track.cache, o) && !refused
    case TrimReleasing(group, _) => group == o.group && Contains(track.cache, o) && !refused
    case Idle => (!refused && Contains(track.cache, o)) || (refused && Shrunk(track.cache, c, o, 0) && grew)
    case Dropped => false
  }

  /** All but `left` of the groups older than `o`'s own are gone, and nothing else. */
  ghost predicate Shrunk(now: Cache, c: Cache, o: Object, left: nat) {
    left <= OlderGroups(c.arrival, o.group) && now == Drop(c, OlderGroups(c.arrival, o.group) - left)
  }

  /** Where the insert stands after step `i - 1`. */
  ghost predicate Stage(policy: Policy, states: seq<State>, who: seq<TrackId>, t: TrackId, a: nat, i: nat, o: Object) {
    && a < i <= |who| < |states| && t in states[a].tracks && t in states[i].tracks
    && Standing(states[i].tracks[t], states[a].tracks[t].cache, o,
                AllRefused(policy, states, who, t, a, i, o),
                    OthersCharge(states[a], t) < OthersCharge(states[i - 1], t))
  }

  /** The counter is a track's own charge and the others'. */
  lemma UsedIsOwnAndOthers(policy: Policy, s: State, t: TrackId)
    requires Inv(policy, s) && t in s.tracks
    ensures s.used == Charge(s.tracks[t]) + OthersCharge(s, t)
  {
    hide TrackInv;
    TotalWithout(Charges(s.tracks), t);
    assert Charges(s.tracks) - {t} == Charges(s.tracks - {t});
  }

  /** The check made first passes exactly when dropping every older group would make the bytes fit. */
  lemma FirstCheckExactly(policy: Policy, s: State, t: TrackId, o: Object)
    requires Inv(policy, s) && t in s.tracks && s.tracks[t].phase.Idle?
    ensures var c := s.tracks[t].cache;
            MayFit(policy, s.used, c, o) <==> BytesFit(policy, c, s.used, o, OlderGroups(c.arrival, o.group))
  {
    hide CacheValid;
    var c := s.tracks[t].cache;
    assert TrackInv(policy, s.tracks[t]);
    UsedIsOwnAndOthers(policy, s, t);
    BytesSplit(c.groups, c.arrival, OlderGroups(c.arrival, o.group));
    CacheBytes(c);
  }

  lemma CacheBytes(c: Cache)
    requires CacheValid(c)
    ensures c.bytes == BytesOf(c.groups, c.arrival)
  {
  }

  /** An attempt succeeds exactly when the Object fits beside what all tracks hold. */
  lemma FitsExactly(policy: Policy, s: State, t: TrackId, o: Object)
    requires Inv(policy, s) && t in s.tracks && s.tracks[t].phase.Searching?
    ensures Fits(policy, s.used, s.tracks[t], o) <==> !Exceeds(policy, s, t, o)
  {
    UsedIsOwnAndOthers(policy, s, t);
  }

  lemma OthersMoveAlone(policy: Policy, s: State, s': State, t: TrackId, u: TrackId)
    requires Next(policy, s, s', u) && u != t && t in s.tracks && t in s'.tracks
    ensures s'.tracks[t] == s.tracks[t]
  {
    hide TrackStep;
  }

  /** The first check leaves enough of the budget, and with every older group gone enough of the track. */
  lemma LastRefusalNeedsGrowth(policy: Policy, before: State, s: State, t: TrackId, o: Object)
    requires Inv(policy, before) && t in before.tracks && before.tracks[t].phase.Idle?
    requires MayFit(policy, before.used, before.tracks[t].cache, o)
    requires t in s.tracks && Exceeds(policy, s, t, o)
    requires var c := before.tracks[t].cache; Shrunk(s.tracks[t].cache, c, o, 0)
    ensures OthersCharge(before, t) < OthersCharge(s, t)
  {
    hide CacheValid;
    var c := before.tracks[t].cache;
    UsedIsOwnAndOthers(policy, before, t);
    assert CacheValid(c);
    DropValid(c, OlderGroups(c.arrival, o.group));
  }

  lemma SearchStage(policy: Policy, states: seq<State>, who: seq<TrackId>, t: TrackId, a: nat, i: nat, o: Object)
    requires a < i < |who| < |states| && t in states[a].tracks && t in states[i].tracks && t in states[i + 1].tracks
    requires Inv(policy, states[a]) && Inv(policy, states[i]) && states[a].tracks[t].phase.Idle?
    requires MayFit(policy, states[a].used, states[a].tracks[t].cache, o)
    requires who[i] == t
        && TrackStep(policy, states[i].used, states[i].tracks[t], states[i + 1].used, states[i + 1].tracks[t])
    requires states[i].tracks[t].phase.Searching? && Stage(policy, states, who, t, a, i, o)
    ensures Stage(policy, states, who, t, a, i + 1, o)
  {
    hide TrackStep;
    hide OthersCharge;
    hide Fits;
    hide Shrunk;
    hide Exceeds;
    hide AllRefused;
    hide Inv;
    hide MayFit;
    var c, track := states[a].tracks[t].cache, states[i].tracks[t];
    FitsExactly(policy, states[i], t, o);
    RefusedGrows(policy, states, who, t, a, i, o);
    var exceeds := Exceeds(policy, states[i], t, o);
    if exceeds && track.phase.older == 0 {
      LastRefusalNeedsGrowth(policy, states[a], states[i], t, o);
    }
    SearchMoves(policy, states[i].used, track, states[i + 1].used, states[i + 1].tracks[t], c, o, exceeds,
                OthersCharge(states[a], t) < OthersCharge(states[i], t));
  }

  lemma SearchMoves(
      policy: Policy, used: nat, track: Track, used': nat, track': Track, c: Cache, o: Object, exceeds: bool,
      grew: bool)
    requires track.phase.Searching? && TrackStep(policy, used, track, used', track')
        && Standing(track, c, o, true, grew)
    requires Fits(policy, used, track, o) <==> !exceeds
    requires exceeds && track.phase.older == 0 ==> grew
    ensures Standing(track', c, o, exceeds, grew)
  {
    hide Drop;
    hide Fits;
    if exceeds && track.phase.older != 0 {
      DropOneMore(c, OlderGroups(c.arrival, o.group) - track.phase.older);
    }
  }

  lemma RefusedGrows(policy: Policy, states: seq<State>, who: seq<TrackId>, t: TrackId, a: nat, i: nat, o: Object)
    requires a < i < |who| < |states| && Attempt(states, who, t, i)
    ensures AllRefused(policy, states, who, t, a, i + 1, o) <==>
            AllRefused(policy, states, who, t, a, i, o) && Exceeds(policy, states[i], t, o)
  {
    hide Exceeds;
  }

  lemma CacheIsValid(policy: Policy, s: State, t: TrackId)
    requires Inv(policy, s) && t in s.tracks
    ensures CacheValid(s.tracks[t].cache) && TrackInv(policy, s.tracks[t])
  {
    assert TrackInv(policy, s.tracks[t]);
  }

  /** Trimming drops an older group and never the one just stored into. */
  lemma TrimKeepsObject(policy: Policy, track: Track, o: Object)
    requires TrackInv(policy, track) && track.phase == Trimming(o.group) && Contains(track.cache, o)
    requires policy.groups < |track.cache.groups|
    ensures track.cache.arrival != [] && Contains(Drop(track.cache, 1), o)
  {
    hide CacheValid;
    CountIsArrivals(track.cache);
    assert track.cache.arrival[1..][policy.groups - 1] == o.group;
  }

  lemma KeepStage(policy: Policy, states: seq<State>, who: seq<TrackId>, t: TrackId, a: nat, i: nat, o: Object)
    requires a < i < |who| < |states| && t in states[a].tracks && t in states[i].tracks && t in states[i + 1].tracks
    requires Inv(policy, states[i])
    requires who[i] == t
        && TrackStep(policy, states[i].used, states[i].tracks[t], states[i + 1].used, states[i + 1].tracks[t])
    requires !states[i].tracks[t].phase.Searching? && !states[i].tracks[t].phase.Idle?
        && Stage(policy, states, who, t, a, i, o)
    ensures Stage(policy, states, who, t, a, i + 1, o)
  {
    hide TrackStep;
    hide OthersCharge;
    hide AllRefused;
    hide Inv;
    hide TrackInv;
    hide CacheValid;
    hide Standing;
    CacheIsValid(policy, states[i], t);
    RefusedStays(policy, states, who, t, a, i, o);
    KeepMoves(policy, states[i].used, states[i].tracks[t], states[i + 1].used, states[i + 1].tracks[t],
        states[a].tracks[t].cache, o,
              AllRefused(policy, states, who, t, a, i, o),
              OthersCharge(states[a], t) < OthersCharge(states[i - 1], t),
                  OthersCharge(states[a], t) < OthersCharge(states[i], t));
  }

  /** The phases after a search, the Object staying once it is stored. */
  lemma KeepMoves(
      policy: Policy, used: nat, track: Track, used': nat, track': Track, c: Cache, o: Object, refused: bool,
      grew: bool, grew': bool)
    requires TrackInv(policy, track) && TrackStep(policy, used, track, used', track')
    requires !track.phase.Searching? && !track.phase.Idle? && Standing(track, c, o, refused, grew)
    ensures Standing(track', c, o, refused, grew')
  {
    hide CacheValid;
    hide Drop;
    hide Shrunk;
    if track.phase.Trimming? && policy.groups < |track.cache.groups| {
      TrimKeepsObject(policy, track, o);
    }
  }

  /** A step that is no attempt leaves the record of attempts as it is. */
  lemma RefusedStays(policy: Policy, states: seq<State>, who: seq<TrackId>, t: TrackId, a: nat, i: nat, o: Object)
    requires a < i < |who| < |states| && !Attempt(states, who, t, i)
    ensures AllRefused(policy, states, who, t, a, i + 1, o) <==> AllRefused(policy, states, who, t, a, i, o)
  {
    hide Exceeds;
  }

  lemma {:induction false} InsertStages(
      policy: Policy, states: seq<State>, who: seq<TrackId>, t: TrackId, a: nat, e: nat, o: Object, i: nat)
    requires policy.totalBytes < USIZE
    requires Inserts(policy, states, who, t, a, e, o) && a < i <= e
    ensures Stage(policy, states, who, t, a, i, o)
  {
    hide Inv;
    hide TrackStep;
    hide Stage;
    hide MayFit;
    RunConserves(policy, states, who);
    InsertBegins(policy, states, who, t, a, e, o);
    if a + 1 < i {
      var n := i - 1;
      InsertStages(policy, states, who, t, a, e, o, n);
      assert Next(policy, states[n], states[n + 1], who[n]);
      if who[n] != t {
        OthersMoveAlone(policy, states[n], states[n + 1], t, who[n]);
        StageStays(policy, states, who, t, a, n, o);
      } else {
        StageNotDropped(policy, states, who, t, a, n, o);
        if states[n].tracks[t].phase.Searching? {
          SearchStage(policy, states, who, t, a, n, o);
        } else {
          KeepStage(policy, states, who, t, a, n, o);
        }
      }
    }
  }

  lemma StageNotDropped(policy: Policy, states: seq<State>, who: seq<TrackId>, t: TrackId, a: nat, i: nat, o: Object)
    requires a < i <= |who| < |states| && t in states[a].tracks && t in states[i].tracks
        && Stage(policy, states, who, t, a, i, o)
    ensures !states[i].tracks[t].phase.Dropped?
  {
  }

  lemma StageStays(policy: Policy, states: seq<State>, who: seq<TrackId>, t: TrackId, a: nat, i: nat, o: Object)
    requires a < i < |who| < |states| && t in states[a].tracks && t in states[i].tracks && t in states[i + 1].tracks
    requires who[i] != t && states[i + 1].tracks[t] == states[i].tracks[t] && !states[i].tracks[t].phase.Idle?
    requires Stage(policy, states, who, t, a, i, o)
    ensures Stage(policy, states, who, t, a, i + 1, o)
  {
    hide AllRefused;
    hide Shrunk;
    RefusedStays(policy, states, who, t, a, i, o);
  }

  lemma InsertBegins(policy: Policy, states: seq<State>, who: seq<TrackId>, t: TrackId, a: nat, e: nat, o: Object)
    requires Inserts(policy, states, who, t, a, e, o) && Inv(policy, states[a])
    ensures MayFit(policy, states[a].used, states[a].tracks[t].cache, o) && !Contains(states[a].tracks[t].cache, o)
    ensures Stage(policy, states, who, t, a, a + 1, o)
  {
    hide MayFit;
    hide Drop;
    hide CacheValid;
    assert Next(policy, states[a], states[a + 1], who[a]);
    CacheIsValid(policy, states[a], t);
    DropNothing(states[a].tracks[t].cache);
  }

  /**
   * An insert among any others. Its Object is kept if and only if at one of its attempts it fitted
   * beside what all tracks held. If it was not kept, exactly its older groups are gone, and what the
   * other tracks hold has grown between its check and its last attempt.
   */
  lemma KeptExactlyWhenItFitted(
      policy: Policy, states: seq<State>, who: seq<TrackId>, t: TrackId, a: nat, e: nat, o: Object)
    requires policy.totalBytes < USIZE
    requires Inserts(policy, states, who, t, a, e, o)
    ensures Contains(states[e].tracks[t].cache, o) <==> !AllRefused(policy, states, who, t, a, e, o)
    ensures !Contains(states[e].tracks[t].cache, o) ==>
              var c := states[a].tracks[t].cache;
              && states[e].tracks[t].cache == Drop(c, OlderGroups(c.arrival, o.group))
              && OthersCharge(states[a], t) < OthersCharge(states[e - 1], t)
  {
    hide Inv;
    hide IsRun;
    hide AllRefused;
    RunConserves(policy, states, who);
    InsertStages(policy, states, who, t, a, e, o, e);
    InsertBegins(policy, states, who, t, a, e, o);
  }

  /** Unless the other tracks come to hold more than at the check, an insert that passed it keeps its Object. */
  lemma NoGrowthNoLoss(policy: Policy, states: seq<State>, who: seq<TrackId>, t: TrackId, a: nat, e: nat, o: Object)
    requires policy.totalBytes < USIZE
    requires Inserts(policy, states, who, t, a, e, o)
    requires forall i :: a < i < e ==> OthersCharge(states[i], t) <= OthersCharge(states[a], t)
    ensures Contains(states[e].tracks[t].cache, o)
  {
    hide IsRun;
    KeptExactlyWhenItFitted(policy, states, who, t, a, e, o);
  }

  // ---------------------------------------------------------------- what is retained was inserted

  /** Before state `i`, an insert of exactly this Object into track `t` began. */
  ghost predicate Offered(states: seq<State>, who: seq<TrackId>, t: TrackId, i: nat, o: Object)
    requires i <= |who| < |states|
  {
    exists j :: 0 <= j < i && who[j] == t && InsertBegan(states[j], states[j + 1], t, o)
  }

  ghost predicate InsertBegan(s: State, s': State, t: TrackId, o: Object) {
    && t in s.tracks && s.tracks[t].phase.Idle? && t in s'.tracks && s'.tracks[t].phase.Searching?
    && s'.tracks[t].phase.o == o
  }

  /** Every Object a track retains or is about to was offered to it as it is. */
  ghost predicate AllOffered(states: seq<State>, who: seq<TrackId>, i: nat)
    requires i <= |who| < |states|
  {
    forall t :: t in states[i].tracks ==> TrackOffered(states, who, t, i, states[i].tracks[t])
  }

  ghost predicate TrackOffered(states: seq<State>, who: seq<TrackId>, t: TrackId, i: nat, track: Track)
    requires i <= |who| < |states|
  {
    && (forall loc: Location :: Retained(StoreOf(track.cache.groups), loc) ==>
          Offered(states, who, t, i, StoreOf(track.cache.groups)[loc.group][loc.objectId]))
    && (track.phase.Searching? || track.phase.Releasing? || track.phase.Reserved? ==>
        Offered(states, who, t, i, track.phase.o))
  }

  lemma OfferedLater(states: seq<State>, who: seq<TrackId>, t: TrackId, i: nat, o: Object)
    requires i < |who| < |states| && Offered(states, who, t, i, o)
    ensures Offered(states, who, t, i + 1, o)
  {
    var j :| 0 <= j < i && who[j] == t && InsertBegan(states[j], states[j + 1], t, o);
    assert j < i + 1;
  }

  /** A step of a track brings no Object into its cache but the one it reserved for. */
  lemma StepBringsOnlyReserved(policy: Policy, used: nat, track: Track, used': nat, track': Track)
    requires TrackInv(policy, track) && TrackStep(policy, used, track, used', track')
    ensures forall loc: Location :: Retained(StoreOf(track'.cache.groups), loc) ==>
              var x := StoreOf(track'.cache.groups)[loc.group][loc.objectId];
              || (track.phase.Reserved? && x == track.phase.o)
              || (Retained(StoreOf(track.cache.groups), loc)
                  && x == StoreOf(track.cache.groups)[loc.group][loc.objectId])
    ensures track'.phase.Searching? || track'.phase.Releasing? || track'.phase.Reserved? ==>
              || track.phase.Idle?
              || ((track.phase.Searching? || track.phase.Releasing?) && track'.phase.o == track.phase.o)
  {
    hide CacheValid;
  }

  lemma OfferedStep(policy: Policy, states: seq<State>, who: seq<TrackId>, i: nat, t: TrackId)
    requires i < |who| < |states| && Next(policy, states[i], states[i + 1], who[i])
    requires AllOffered(states, who, i) && Inv(policy, states[i]) && t in states[i + 1].tracks
    ensures TrackOffered(states, who, t, i + 1, states[i + 1].tracks[t])
  {
    hide TrackStep;
    hide TrackInv;
    hide Offered;
    var s, s', track' := states[i], states[i + 1], states[i + 1].tracks[t];
    if t in s.tracks {
      assert TrackOffered(states, who, t, i, s.tracks[t]);
      assert TrackInv(policy, s.tracks[t]);
    }
    if t in s.tracks && who[i] == t {
      StepBringsOnlyReserved(policy, s.used, s.tracks[t], s'.used, track');
      if s.tracks[t].phase.Idle? {
        IdleMoves(policy, s.used, s.tracks[t], s'.used, track');
        if track'.phase.Searching? {
          OfferedNow(states, who, t, i, track'.phase.o);
        }
      }
    }
    forall o | Offered(states, who, t, i, o)
      ensures Offered(states, who, t, i + 1, o)
    {
      OfferedLater(states, who, t, i, o);
    }
  }

  lemma IdleMoves(policy: Policy, used: nat, track: Track, used': nat, track': Track)
    requires TrackStep(policy, used, track, used', track') && track.phase.Idle?
    ensures track'.phase.Dropped? || track'.phase.Searching?
  {
  }

  lemma OfferedNow(states: seq<State>, who: seq<TrackId>, t: TrackId, i: nat, o: Object)
    requires i < |who| < |states| && who[i] == t && InsertBegan(states[i], states[i + 1], t, o)
    ensures Offered(states, who, t, i + 1, o)
  {
  }

  lemma {:induction false} RunOffers(policy: Policy, states: seq<State>, who: seq<TrackId>, i: nat)
    requires policy.totalBytes < USIZE && IsRun(policy, states, who) && i < |states|
    ensures AllOffered(states, who, i)
  {
    hide Inv;
    hide TrackOffered;
    hide Next;
    RunConserves(policy, states, who);
    if i > 0 {
      RunOffers(policy, states, who, i - 1);
      forall t | t in states[i].tracks
        ensures TrackOffered(states, who, t, i, states[i].tracks[t])
      {
        OfferedStep(policy, states, who, i - 1, t);
      }
    }
  }

  /**
   * In every interleaving, each Object a track retains is one whose insert into that track began
   * earlier, unchanged.
   */
  lemma RetainedWasInserted(policy: Policy, states: seq<State>, who: seq<TrackId>, i: nat, t: TrackId, loc: Location)
    requires policy.totalBytes < USIZE && IsRun(policy, states, who) && i < |states| && t in states[i].tracks
    requires Retained(StoreOf(states[i].tracks[t].cache.groups), loc)
    ensures var x := StoreOf(states[i].tracks[t].cache.groups)[loc.group][loc.objectId];
            x.Location() == loc && Offered(states, who, t, i, x)
  {
    RunOffers(policy, states, who, i);
    RunConserves(policy, states, who);
    assert TrackOffered(states, who, t, i, states[i].tracks[t]) && TrackInv(policy, states[i].tracks[t]);
  }

  // ---------------------------------------------------------------- the loss does happen

  /** An insert that passed its check ends with fewer groups and without its Object. */
  ghost predicate LosesGroupForNothing(
      policy: Policy, states: seq<State>, who: seq<TrackId>, t: TrackId, a: nat, e: nat, o: Object) {
    && policy.totalBytes < USIZE && Inserts(policy, states, who, t, a, e, o)
    && states[e].tracks[t].cache.groups.Keys < states[a].tracks[t].cache.groups.Keys
    && !Contains(states[e].tracks[t].cache, o)
  }

  const DEMO := Policy(2, 10, 3)
  const OLD := Object(0, 0, 1, [])
  const RIVAL := Object(0, 0, 2, [])
  const NEW := Object(1, 0, 3, [])
  const HELD := Cache(map[0 := Group(map[0 := OLD], 1)], [0], 1)

  /** Track 0 holds one group and passes its check for a second; track 1 then takes what was left. */
  ghost function Demo(i: nat): State {
    if i == 0 then State(0, map[])
    else if i == 1 then State(0, map[0 := Track(EMPTY, Idle)])
    else if i == 2 then State(0, map[0 := Track(EMPTY, Searching(OLD, 0))])
    else if i == 3 then State(1, map[0 := Track(EMPTY, Reserved(OLD))])
    else if i == 4 then State(1, map[0 := Track(HELD, Trimming(0))])
    else if i == 5 then State(1, map[0 := Track(HELD, Idle)])
    else if i == 6 then State(1, map[0 := Track(HELD, Idle), 1 := Track(EMPTY, Idle)])
    else if i == 7 then State(1, map[0 := Track(HELD, Idle), 1 := Track(EMPTY, Searching(RIVAL, 0))])
    else if i == 8 then State(1, map[0 := Track(HELD, Searching(NEW, 1)), 1 := Track(EMPTY, Searching(RIVAL, 0))])
    else if i == 9 then State(3, map[0 := Track(HELD, Searching(NEW, 1)), 1 := Track(EMPTY, Reserved(RIVAL))])
    else if i == 10 then State(3, map[0 := Track(EMPTY, Releasing(NEW, 0, 1)), 1 := Track(EMPTY, Reserved(RIVAL))])
    else if i == 11 then State(2, map[0 := Track(EMPTY, Searching(NEW, 0)), 1 := Track(EMPTY, Reserved(RIVAL))])
    else State(2, map[0 := Track(EMPTY, Idle), 1 := Track(EMPTY, Reserved(RIVAL))])
  }

  ghost function DemoWho(i: nat): TrackId {
    if i == 5 || i == 6 || i == 8 then 1 else 0
  }

  lemma DemoCaches()
    ensures Add(EMPTY, OLD) == HELD && Drop(HELD, 1) == EMPTY && OlderGroups(HELD.arrival, 1) == 1
    ensures BytesIn(HELD.groups, 0) == 1 && HELD.arrival[..1] == [0] && BytesOf(HELD.groups, [0]) == 1
    ensures OlderGroups([], 0) == 0 && BytesOf(map[], []) == 0 && EMPTY.arrival[..0] == []
  {
    assert HELD.arrival[1..] == [];
    assert Keep(HELD.groups, []) == map[];
  }

  lemma DemoFills()
    ensures forall i :: 0 <= i < 5 ==> Next(DEMO, Demo(i), Demo(i + 1), DemoWho(i))
  {
    hide Drop;
    DemoCaches();
  }

  lemma DemoChecks()
    ensures forall i :: 5 <= i < 9 ==> Next(DEMO, Demo(i), Demo(i + 1), DemoWho(i))
  {
    hide Drop;
    hide Add;
    DemoCaches();
  }

  lemma DemoLoses()
    ensures forall i :: 9 <= i < 12 ==> Next(DEMO, Demo(i), Demo(i + 1), DemoWho(i))
  {
    hide Add;
    hide Drop;
    DemoCaches();
  }

  /** Another track taking the budget after the check makes that happen: "evicts nothing" needs no such growth. */
  lemma InterferenceCanLoseAGroup()
    ensures exists policy: Policy, states, who, t, a, e, o :: LosesGroupForNothing(policy, states, who, t, a, e, o)
  {
    hide Next;
    DemoFills();
    DemoChecks();
    DemoLoses();
    var states := seq(13, i requires 0 <= i < 13 => Demo(i));
    var who: seq<TrackId> := seq(12, i requires 0 <= i < 12 => DemoWho(i));
    assert IsRun(DEMO, states, who);
    assert 0 in HELD.groups;
    assert LosesGroupForNothing(DEMO, states, who, 0, 7, 12, NEW);
  }
}
