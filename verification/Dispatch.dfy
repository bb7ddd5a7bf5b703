/** What dispatching one MMTP packet does to its track: the specification of the publisher. */
module DispatchSpec {
  import opened Options
  import opened PresentationClock

  type U8 = n: int | 0 <= n < 256

  datatype PacketType = Mpu | Repair | Generic | Control

  datatype FragmentType = Init | Fragment | Mfu

  /** MFU identity from the data-unit header. */
  datatype Identity = Timed(sequence: U32, sample: U32) | NonTimed(item: U32)

  datatype Packet = Packet(
    packetType: PacketType, mpuSequence: Option<U32>, fragmentType: Option<FragmentType>, timestamp: U32,
    aggregation: bool, indicator: U8, counter: U8, identity: Option<Identity>, payload: seq<bv8>)

  /** Whether the transport accepts a subgroup and an object at this moment. */
  datatype Env = Env(createOk: bool, putOk: bool)

  /** What the transport has been given. */
  datatype Event =
    | Created(group: nat, subgroup: nat, priority: U8)
    | Wrote(group: nat, subgroup: nat, packet: Packet)

  datatype Subgroup = Subgroup(group: nat, id: nat)

  datatype ActiveMfu = ActiveMfu(identity: Identity, counter: U8)

  datatype RepairSink = RepairSink(priority: U8, currentGroup: Option<nat>, log: seq<Event>)

  type Positive = n: int | 0 < n witness 1

  datatype Track = Track(
    priority: U8, timescale: U32, duration: Positive, depth: Positive,
    log: seq<Event>, currentGroup: Option<nat>, lastSequence: Option<U32>, initGroup: Option<Subgroup>,
    mfuGroups: map<Identity, Subgroup>, active: map<U32, ActiveMfu>, nextSubgroup: nat,
    highest: Option<int>, repair: Option<RepairSink>)

  datatype DispatchError =
    | UnknownPacketId | MissingSequence | MissingFragmentType | Aggregated | SequenceRegression
    | OverlappingMfus | NoActiveMfu | CounterGap | InconsistentIndicator | MovieFragment
    | RepairBeforeSource | NoRepairTrack | SinkFailed

  /** `Written`, `StaleDropped` and `Skipped` are successes of the source's `dispatch`. */
  datatype Outcome = Written | StaleDropped | Skipped | Failed(error: DispatchError)

  datatype Step = Step(track: Track, outcome: Outcome)

  function NewTrack(
      priority: U8, timescale: U32, duration: Positive, depth: Positive, repairPriority: Option<U8>): Track {
    Track(priority, timescale, duration, depth, [], None, None, None, map[], map[], 1, None,
          if repairPriority.Some? then Some(RepairSink(repairPriority.value, None, [])) else None)
  }

  /** The shared epoch is the first timestamp any track sees. */
  function Epoch(epoch: Option<U32>, timestamp: U32): U32 {
    if epoch.Some? then epoch.value else timestamp
  }

  function Elapsed(t: Track, epoch: U32, timestamp: U32): int {
    Unwrap(t.highest, WrappingSub(timestamp, epoch))
  }

  function FormulaGroup(t: Track, epoch: U32, timestamp: U32): nat {
    GroupNumber(Elapsed(t, epoch, timestamp), t.timescale, t.duration)
  }

  /** The headers `dispatch` insists on before it looks at the clock. */
  function Refusal(t: Track, p: Packet): Option<DispatchError> {
    if p.mpuSequence.None? then Some(MissingSequence)
    else if p.fragmentType.None? then Some(MissingFragmentType)
    else if p.aggregation then Some(Aggregated)
    else if t.lastSequence.Some? && p.mpuSequence.value < t.lastSequence.value then Some(SequenceRegression)
    else None
  }

  predicate Stale(t: Track, group: nat) {
    t.currentGroup.Some? && group < t.currentGroup.value
  }

  function Clocked(t: Track, epoch: U32, p: Packet): Track {
    t.(lastSequence := p.mpuSequence, highest := Highest(t.highest, Elapsed(t, epoch, p.timestamp)))
  }

  /** In a new group every per-group table starts over. */
  function EnterGroup(t: Track, group: nat): Track {
    if t.currentGroup == Some(group) then t
    else t.(currentGroup := Some(group), initGroup := None, mfuGroups := map[], active := map[], nextSubgroup := 1)
  }

  /** The subgroup identity of an MFU packet and the fragment chains after it, or why it is refused. */
  datatype Resolution = Resolved(identity: Identity, active: map<U32, ActiveMfu>) | Refused(error: DispatchError)

  function Resolve(active: map<U32, ActiveMfu>, p: Packet): Resolution {
    if p.indicator == 0 && p.identity.Some? then Resolved(p.identity.value, active)
    else if p.indicator == 1 && p.identity.Some? then
      if p.timestamp in active then Refused(OverlappingMfus)
      else Resolved(p.identity.value, active[p.timestamp := ActiveMfu(p.identity.value, p.counter)])
    else if (p.indicator == 2 || p.indicator == 3) && p.identity.None? then
      if p.timestamp !in active then Refused(NoActiveMfu)
      else
        var mfu := active[p.timestamp];
        if p.counter != (mfu.counter + 1) % 256 then Refused(CounterGap)
        else if p.indicator == 3 then Resolved(mfu.identity, active - {p.timestamp})
        else Resolved(mfu.identity, active[p.timestamp := mfu.(counter := p.counter)])
    else Refused(InconsistentIndicator)
  }

  /** Write to an open subgroup, or not at all. */
  function Put(t: Track, s: Subgroup, p: Packet, env: Env): Step {
    if env.putOk then Step(t.(log := t.log + [Wrote(s.group, s.id, p)]), Written) else Step(t, Failed(SinkFailed))
  }

  function PutInit(t: Track, group: nat, p: Packet, env: Env): Step {
    if t.initGroup.Some? then Put(t, t.initGroup.value, p, env)
    else if env.createOk then
      var s := Subgroup(group, 0);
      Put(t.(log := t.log + [Created(group, 0, t.priority)], initGroup := Some(s)), s, p, env)
    else Step(t, Failed(SinkFailed))
  }

  function PutMfu(t: Track, group: nat, identity: Identity, p: Packet, env: Env): Step {
    if identity in t.mfuGroups then Put(t, t.mfuGroups[identity], p, env)
    else if env.createOk then
      var s := Subgroup(group, t.nextSubgroup);
      Put(t.(log := t.log + [Created(group, s.id, t.priority)],
             nextSubgroup := t.nextSubgroup + 1, mfuGroups := t.mfuGroups[identity := s]), s, p, env)
    else Step(t, Failed(SinkFailed))
  }

  /** A packet of the current group goes to its subgroup. */
  function PutFragment(t: Track, group: nat, p: Packet, env: Env): Step {
    match p.fragmentType
    case Some(Init) => PutInit(t, group, p, env)
    case Some(Mfu) =>
      (match Resolve(t.active, p)
       case Refused(error) => Step(t, Failed(error))
       case Resolved(identity, active) => PutMfu(t.(active := active), group, identity, p, env))
    case _ => Step(t, Failed(MovieFragment))
  }

  function DispatchMpu(t: Track, epoch: U32, p: Packet, env: Env): Step {
    var refusal := Refusal(t, p);
    if refusal.Some? then Step(t, Failed(refusal.value))
    else
      var group := FormulaGroup(t, epoch, p.timestamp);
      var clocked := Clocked(t, epoch, p);
      if Stale(t, group) then Step(clocked, StaleDropped) else PutFragment(EnterGroup(clocked, group), group, p, env)
  }

  function DispatchRepair(t: Track, p: Packet, env: Env): Step {
    if t.currentGroup.None? then Step(t, Failed(RepairBeforeSource))
    else if t.repair.None? then Step(t, Failed(NoRepairTrack))
    else
      var group := t.currentGroup.value / t.depth;
      var r := t.repair.value;
      if r.currentGroup != Some(group) && !env.createOk then Step(t, Failed(SinkFailed))
      else
        var ready := if r.currentGroup == Some(group) then r
                      else r.(currentGroup := Some(group), log := r.log + [Created(group, 0, r.priority)]);
        if env.putOk
        then Step(t.(repair := Some(ready.(log := ready.log + [Wrote(group, 0, p)]))), Written)
        else Step(t.(repair := Some(ready)), Failed(SinkFailed))
  }

  function DispatchTrack(t: Track, epoch: U32, p: Packet, env: Env): Step {
    match p.packetType
    case Mpu => DispatchMpu(t, epoch, p, env)
    case Repair => DispatchRepair(t, p, env)
    case _ => Step(t, Skipped)
  }

  /** Only a media packet that passes the header checks reaches the clock and can set the epoch. */
  function EpochAfter(t: Track, epoch: Option<U32>, p: Packet): Option<U32> {
    if p.packetType.Mpu? && Refusal(t, p).None? then Some(Epoch(epoch, p.timestamp)) else epoch
  }

  /** All tracks by MMTP packet id, and the epoch they share. */
  datatype Publication = Publication(tracks: map<nat, Track>, epoch: Option<U32>)

  /** One received packet, and what the transport would say to it. */
  datatype Arrival = Arrival(packetId: nat, packet: Packet, env: Env)

  function PublishOne(pub: Publication, a: Arrival): Publication {
    if a.packetId !in pub.tracks then pub
    else
      var t := pub.tracks[a.packetId];
      Publication(
        pub.tracks[a.packetId := DispatchTrack(t, Epoch(pub.epoch, a.packet.timestamp), a.packet, a.env).track],
        EpochAfter(t, pub.epoch, a.packet))
  }

  function PublishAll(pub: Publication, arrivals: seq<Arrival>): Publication {
    if arrivals == [] then pub else PublishOne(PublishAll(pub, arrivals[..|arrivals| - 1]), arrivals[|arrivals| - 1])
  }
}
