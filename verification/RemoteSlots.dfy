/**
 * The cache of relay-to-relay connections: one map lock, one lock per slot. Every acquire, access
 * and release is a step of one of any number of tasks, interleaved in any order; a call may also be
 * cancelled wherever it waits. `shutdown`, which empties the map at exit, is not part of this.
 */
module RemoteSlots {
  import opened Options

  type Key = nat
  type SlotId = nat
  type ConnId = nat
  type TaskId = nat

  /** A slot, the key it was made for, the connection in it and the task holding its lock. */
  datatype Slot = Slot(key: Key, content: Option<ConnId>, holder: Option<TaskId>)

  datatype Conn = Conn(slot: SlotId, connected: bool)

  datatype Pc =
    // get_or_connect
    | WantMap
    | AtMap
    | FoundSlot(slot: SlotId)
    | WantSlot(slot: SlotId)
    | WantCheck(slot: SlotId)
    | Checking(slot: SlotId)
    | Checked(slot: SlotId, current: bool)
    | Stale(slot: SlotId)
    | Current(slot: SlotId)
    | Connecting(slot: SlotId)
    | Connected(slot: SlotId, conn: ConnId)
    | Returning(slot: SlotId)
    | ConnectFailed(slot: SlotId)
    // remove_if_same_remote, and the cleanup when a session ends
    | WantLookup(conn: ConnId)
    | AtLookup(conn: ConnId)
    | LookedUp(found: Option<SlotId>, conn: ConnId)
    | WantClear(slot: SlotId, conn: ConnId)
    | Clearing(slot: SlotId, conn: ConnId)
    | Cleared(slot: SlotId, took: bool)
    // remove_empty_remote_slot
    | WantEmpty(slot: SlotId)
    | AtEmpty(slot: SlotId)
    | WantRemove(slot: SlotId)
    | Removing(slot: SlotId)
    | Removed(slot: SlotId)
    | Leaving(slot: SlotId)
    | Done

  /**
   * A session's cleanup is spawned on its own and runs to its end; any other task lives in a call that
   * may be dropped.
   */
  datatype Task = Task(key: Key, pc: Pc, spawned: bool)

  datatype State = State(
    slotOf: map<Key, SlotId>, mapHolder: Option<TaskId>, slots: map<SlotId, Slot>, conns: map<ConnId, Conn>,
        tasks: map<TaskId, Task>)

  const EMPTY := State(map[], None, map[], map[], map[])

  predicate HoldsMap(pc: Pc) {
    pc.AtMap? || pc.FoundSlot? || pc.Checking? || pc.Checked? || pc.AtLookup? || pc.LookedUp? || pc.Removing?
        || pc.Removed?
  }

  /** The slot whose lock a task holds. */
  function HeldSlot(pc: Pc): Option<SlotId> {
    match pc
    case WantCheck(s) => Some(s)
    case Checking(s) => Some(s)
    case Checked(s, _) => Some(s)
    case Stale(s) => Some(s)
    case Current(s) => Some(s)
    case Connecting(s) => Some(s)
    case Connected(s, _) => Some(s)
    case Returning(s) => Some(s)
    case ConnectFailed(s) => Some(s)
    case Clearing(s, _) => Some(s)
    case Cleared(s, _) => Some(s)
    case AtEmpty(s) => Some(s)
    case WantRemove(s) => Some(s)
    case Removing(s) => Some(s)
    case Removed(s) => Some(s)
    case Leaving(s) => Some(s)
    case _ => None
  }

  /** Any slot a task refers to, held or not. */
  function SlotRef(pc: Pc): Option<SlotId> {
    match pc
    case FoundSlot(s) => Some(s)
    case WantSlot(s) => Some(s)
    case LookedUp(found, _) => found
    case WantClear(s, _) => Some(s)
    case WantEmpty(s) => Some(s)
    case _ => HeldSlot(pc)
  }

  predicate WaitsForMap(pc: Pc) {
    pc.WantMap? || pc.WantCheck? || pc.WantLookup? || pc.WantRemove?
  }

  function WaitsForSlot(pc: Pc): Option<SlotId> {
    match pc
    case WantSlot(s) => Some(s)
    case WantClear(s, _) => Some(s)
    case WantEmpty(s) => Some(s)
    case _ => None
  }

  /** A connect is under way: dialling, or dialled and not yet stored. */
  predicate InFlight(pc: Pc) {
    pc.Connecting? || pc.Connected?
  }

  /** The task has seen its slot to be the current one, and keeps the slot locked since. */
  predicate PassedCheck(pc: Pc) {
    (pc.Checked? && pc.current) || pc.Current? || InFlight(pc) || pc.Returning? || pc.ConnectFailed?
  }

  /** The task has seen its slot empty, and keeps it locked since. */
  predicate SawEmpty(pc: Pc) {
    InFlight(pc) || pc.ConnectFailed? || pc.WantRemove? || pc.Removing? || pc.Removed?
  }

  function Move(s: State, t: TaskId, pc: Pc): State
    requires t in s.tasks
  {
    s.(tasks := s.tasks[t := s.tasks[t].(pc := pc)])
  }

  function LockMap(s: State, t: TaskId, pc: Pc): State
    requires t in s.tasks
  {
    Move(s.(mapHolder := Some(t)), t, pc)
  }

  function UnlockMap(s: State, t: TaskId, pc: Pc): State
    requires t in s.tasks
  {
    Move(s.(mapHolder := None), t, pc)
  }

  function SetHolder(s: State, slot: SlotId, holder: Option<TaskId>): State
    requires slot in s.slots
  {
    s.(slots := s.slots[slot := s.slots[slot].(holder := holder)])
  }

  function SetContent(s: State, slot: SlotId, content: Option<ConnId>): State
    requires slot in s.slots
  {
    s.(slots := s.slots[slot := s.slots[slot].(content := content)])
  }

  function Disconnect(s: State, conn: Option<ConnId>): State {
    if conn.Some? && conn.value in s.conns
    then s.(conns := s.conns[conn.value := s.conns[conn.value].(connected := false)]) else s
  }

  /** The task's key gets a new, empty slot. */
  function AddSlot(s: State, t: TaskId, slot: SlotId): State
    requires t in s.tasks
  {
    var key := s.tasks[t].key;
    Move(s.(slotOf := s.slotOf[key := slot], slots := s.slots[slot := Slot(key, None, None)]), t, FoundSlot(slot))
  }

  predicate IsCurrent(s: State, key: Key, slot: SlotId) {
    key in s.slotOf && s.slotOf[key] == slot
  }

  /** One step of `get_or_connect`. */
  ghost predicate GetStep(s: State, s': State, t: TaskId)
    requires t in s.tasks
  {
    var key := s.tasks[t].key;
    match s.tasks[t].pc
    case WantMap => s.mapHolder.None? && s' == LockMap(s, t, AtMap)
    case AtMap =>
      if key in s.slotOf then s' == Move(s, t, FoundSlot(s.slotOf[key]))
      else exists slot ::
          slot !in s.slots && s' == AddSlot(s, t, slot)
    case FoundSlot(slot) => s' == UnlockMap(s, t, WantSlot(slot))
    case WantSlot(slot) =>
        slot in s.slots && s.slots[slot].holder.None? && s' == Move(SetHolder(s, slot, Some(t)), t, WantCheck(slot))
    case WantCheck(slot) => s.mapHolder.None? && s' == LockMap(s, t, Checking(slot))
    case Checking(slot) => s' == Move(s, t, Checked(slot, IsCurrent(s, key, slot)))
    case Checked(slot, current) => s' == UnlockMap(s, t, if current then Current(slot) else Stale(slot))
    case Stale(slot) => slot in s.slots && s' == Move(SetHolder(s, slot, None), t, WantMap)
    case Current(slot) =>
      slot in s.slots &&
      var cached := s.slots[slot].content;
      if cached.Some? && cached.value in s.conns && s.conns[cached.value].connected
          then s' == Move(s, t, Returning(slot))
      else s' == Move(Disconnect(SetContent(s, slot, None), cached), t, Connecting(slot))
    case Connecting(slot) =>
      || s' == Move(s, t, ConnectFailed(slot))
      || exists conn :: conn !in s.conns
          && s' == Move(s.(conns := s.conns[conn := Conn(slot, true)]), t, Connected(slot, conn))
    case Connected(slot, conn) => slot in s.slots && s' == Move(SetContent(s, slot, Some(conn)), t, Returning(slot))
    case Returning(slot) => slot in s.slots && s' == Move(SetHolder(s, slot, None), t, Done)
    case ConnectFailed(slot) => slot in s.slots && s' == Move(SetHolder(s, slot, None), t, WantEmpty(slot))
    case _ => false
  }

  /** One step of `remove_if_same_remote` or of the cleanup after a session. */
  ghost predicate ClearStep(s: State, s': State, t: TaskId)
    requires t in s.tasks
  {
    var key := s.tasks[t].key;
    match s.tasks[t].pc
    case WantLookup(conn) => s.mapHolder.None? && s' == LockMap(s, t, AtLookup(conn))
    case AtLookup(conn) => s' == Move(s, t, LookedUp(if key in s.slotOf then Some(s.slotOf[key]) else None, conn))
    case LookedUp(found, conn) => s' == UnlockMap(s, t, if found.Some? then WantClear(found.value, conn) else Done)
    case WantClear(slot, conn) =>
        slot in s.slots && s.slots[slot].holder.None?
            && s' == Move(SetHolder(s, slot, Some(t)), t, Clearing(slot, conn))
    case Clearing(slot, conn) =>
      slot in s.slots &&
      if s.slots[slot].content == Some(conn) then s' == Move(SetContent(s, slot, None), t, Cleared(slot, true))
      else s' == Move(s, t, Cleared(slot, false))
    case Cleared(slot, took) =>
        slot in s.slots && s' == Move(SetHolder(s, slot, None), t, if took then WantEmpty(slot) else Done)
    case _ => false
  }

  /** One step of `remove_empty_remote_slot`. */
  ghost predicate RemoveStep(s: State, s': State, t: TaskId)
    requires t in s.tasks
  {
    var key := s.tasks[t].key;
    match s.tasks[t].pc
    case WantEmpty(slot) =>
        slot in s.slots && s.slots[slot].holder.None? && s' == Move(SetHolder(s, slot, Some(t)), t, AtEmpty(slot))
    case AtEmpty(slot) =>
        slot in s.slots && s' == Move(s, t, if s.slots[slot].content.Some? then Leaving(slot) else WantRemove(slot))
    case WantRemove(slot) => s.mapHolder.None? && s' == LockMap(s, t, Removing(slot))
    case Removing(slot) =>
      if IsCurrent(s, key, slot) then s' == Move(s.(slotOf := s.slotOf - {key}), t, Removed(slot))
      else s' == Move(s, t, Removed(slot))
    case Removed(slot) => s' == UnlockMap(s, t, Leaving(slot))
    case Leaving(slot) => slot in s.slots && s' == Move(SetHolder(s, slot, None), t, Done)
    case _ => false
  }

  /** A call waiting for a lock or a dial is dropped; a lock it holds is released. */
  ghost predicate CancelStep(s: State, s': State, t: TaskId)
    requires t in s.tasks
  {
    var pc := s.tasks[t].pc;
    && !s.tasks[t].spawned && (WaitsForMap(pc) || WaitsForSlot(pc).Some? || pc.Connecting?)
    && (if HeldSlot(pc).Some? then HeldSlot(pc).value in s.slots
        && s' == Move(SetHolder(s, HeldSlot(pc).value, None), t, Done)
        else s' == Move(s, t, Done))
  }

  ghost predicate TaskStep(s: State, s': State, t: TaskId) {
    t in s.tasks && (GetStep(s, s', t) || ClearStep(s, s', t) || RemoveStep(s, s', t) || CancelStep(s, s', t))
  }

  /** A session is over: its connection is down, and a task of its own goes to clear the slot. */
  function EndSession(s: State, t: TaskId, conn: ConnId): State
    requires conn in s.conns && s.conns[conn].slot in s.slots
  {
    var slot := s.conns[conn].slot;
    Disconnect(s, Some(conn)).(tasks := s.tasks[t := Task(s.slots[slot].key, WantClear(slot, conn), true)])
  }

  /** A call begins, or a session ends: the connection is marked down and its cleanup task starts. */
  ghost predicate ArriveStep(s: State, s': State, t: TaskId) {
    && t !in s.tasks
    && ((exists key :: s' == s.(tasks := s.tasks[t := Task(key, WantMap, false)]))
        || (exists key, conn :: s' == s.(tasks := s.tasks[t := Task(key, WantLookup(conn), false)]))
        || (exists conn :: conn in s.conns && s.conns[conn].slot in s.slots && s' == EndSession(s, t, conn)))
  }

  ghost predicate Next(s: State, s': State, t: TaskId) {
    TaskStep(s, s', t) || ArriveStep(s, s', t)
  }

  ghost predicate IsRun(states: seq<State>, who: seq<TaskId>) {
    && |states| == |who| + 1
    && states[0] == EMPTY
    && forall i :: 0 <= i < |who| ==> Next(states[i], states[i + 1], who[i])
  }

  // ---------------------------------------------------------------- the inductive invariant

  ghost predicate TaskOk(s: State, t: TaskId)
    requires t in s.tasks
  {
    var key, pc := s.tasks[t].key, s.tasks[t].pc;
    && (HoldsMap(pc) <==> s.mapHolder == Some(t))
    && (SlotRef(pc).Some? ==> SlotRef(pc).value in s.slots && s.slots[SlotRef(pc).value].key == key)
    && (HeldSlot(pc).Some? ==>
          var slot := HeldSlot(pc).value;
          && slot in s.slots && s.slots[slot].holder == Some(t)
          && (PassedCheck(pc) ==> IsCurrent(s, key, slot))
          && (SawEmpty(pc) ==> s.slots[slot].content.None?))
    && (pc.Connected? ==> pc.conn in s.conns && s.conns[pc.conn].slot == pc.slot)
    && (pc.Removed? ==> !IsCurrent(s, key, pc.slot))
  }

  ghost predicate SlotOk(s: State, slot: SlotId)
    requires slot in s.slots
  {
    var it := s.slots[slot];
    && (it.holder.Some? ==> it.holder.value in s.tasks && HeldSlot(s.tasks[it.holder.value].pc) == Some(slot))
    && (it.content.Some? ==>
        IsCurrent(s, it.key, slot) && it.content.value in s.conns && s.conns[it.content.value].slot == slot)
  }

  ghost predicate Inv(s: State) {
    && (s.mapHolder.Some? ==> s.mapHolder.value in s.tasks && HoldsMap(s.tasks[s.mapHolder.value].pc))
    && (forall t :: t in s.tasks ==> TaskOk(s, t))
    && (forall slot :: slot in s.slots ==> SlotOk(s, slot))
    && (forall key :: key in s.slotOf ==> s.slotOf[key] in s.slots && s.slots[s.slotOf[key]].key == key)
    && (forall conn :: conn in s.conns ==> s.conns[conn].slot in s.slots)
  }

  predicate FreeOr(holder: Option<TaskId>, t: TaskId) {
    holder.None? || holder == Some(t)
  }

  /** What one task's step can change: its own place, locks that are free or its own, and the map only where it may. */
  ghost predicate Frame(s: State, s': State, t: TaskId) {
    && t in s'.tasks && s'.tasks == s.tasks[t := s'.tasks[t]]
    && (s'.mapHolder == s.mapHolder || (FreeOr(s.mapHolder, t) && FreeOr(s'.mapHolder, t)))
    && (forall slot :: slot in s.slots ==>
          slot in s'.slots && s'.slots[slot].key == s.slots[slot].key
          && (s'.slots[slot] == s.slots[slot] || (FreeOr(s.slots[slot].holder, t) && FreeOr(s'.slots[slot].holder, t))))
    && (forall conn :: conn in s.conns ==> conn in s'.conns && s'.conns[conn].slot == s.conns[conn].slot)
    && (forall key :: key in s.slotOf ==>
          || (key in s'.slotOf && s'.slotOf[key] == s.slotOf[key])
          || (key !in s'.slotOf && s.slotOf[key] in s.slots && s.slots[s.slotOf[key]].holder == Some(t)))
    && (forall key :: key in s'.slotOf && key !in s.slotOf ==> s'.slotOf[key] !in s.slots)
  }

  /** A step within its frame leaves every other task's claims true. */
  lemma OthersUnaffected(s: State, s': State, t: TaskId, u: TaskId)
    requires Inv(s) && Frame(s, s', t) && u in s.tasks && u != t
    ensures TaskOk(s', u)
  {
    assert TaskOk(s, u);
    var pc := s.tasks[u].pc;
    assert t in s.tasks ==> TaskOk(s, t);
    if HeldSlot(pc).Some? {
      assert SlotOk(s, HeldSlot(pc).value);
    }
  }

  lemma FrameKeeps(s: State, s': State, t: TaskId)
    requires Inv(s) && Frame(s, s', t) && TaskOk(s', t)
    requires s'.mapHolder == s.mapHolder || s'.mapHolder.None? || HoldsMap(s'.tasks[t].pc)
    requires forall slot :: slot in s'.slots ==>
               SlotOk(s', slot) || (slot in s.slots && s'.slots[slot] == s.slots[slot]
                   && s.slots[slot].holder != Some(t))
    requires forall key :: key in s'.slotOf ==> s'.slotOf[key] in s'.slots && s'.slots[s'.slotOf[key]].key == key
    requires forall conn :: conn in s'.conns ==> s'.conns[conn].slot in s'.slots
    ensures Inv(s')
  {
    forall u | u in s'.tasks
      ensures TaskOk(s', u)
    {
      if u != t {
        OthersUnaffected(s, s', t, u);
      }
    }
    forall slot | slot in s'.slots
      ensures SlotOk(s', slot)
    {
      assert slot in s.slots ==> SlotOk(s, slot);
    }
  }

  /** Steps that move a task and at most the map lock. */
  lemma MoveKeeps(s: State, s': State, t: TaskId, pc: Pc, holder: Option<TaskId>)
    requires Inv(s) && t in s.tasks
    requires s' == Move(s.(mapHolder := holder), t, pc)
    requires holder == s.mapHolder || (FreeOr(s.mapHolder, t) && FreeOr(holder, t))
    requires HeldSlot(pc) == HeldSlot(s.tasks[t].pc) && TaskOk(s', t)
    ensures Inv(s')
  {
    assert TaskOk(s, t);
    forall slot | slot in s'.slots
      ensures SlotOk(s', slot)
    {
      assert SlotOk(s, slot);
    }
    FrameKeeps(s, s', t);
  }

  /** Taking a free slot lock. */
  lemma LockSlotKeeps(s: State, t: TaskId, slot: SlotId, pc: Pc)
    requires Inv(s) && t in s.tasks && slot in s.slots && s.slots[slot].holder.None?
    requires SlotRef(s.tasks[t].pc) == Some(slot) && HeldSlot(s.tasks[t].pc).None? && !HoldsMap(s.tasks[t].pc)
    requires HeldSlot(pc) == Some(slot) && SlotRef(pc) == Some(slot) && !HoldsMap(pc) && !PassedCheck(pc)
        && !SawEmpty(pc) && !pc.Connected? && !pc.Removed?
    ensures Inv(Move(SetHolder(s, slot, Some(t)), t, pc))
  {
    var s' := Move(SetHolder(s, slot, Some(t)), t, pc);
    assert TaskOk(s, t);
    assert SlotOk(s, slot);
    assert SlotOk(s', slot);
    NotHolding(s, t);
    FrameKeeps(s, s', t);
  }

  lemma NotHolding(s: State, t: TaskId)
    requires Inv(s) && t in s.tasks && HeldSlot(s.tasks[t].pc).None?
    ensures forall slot :: slot in s.slots ==> s.slots[slot].holder != Some(t)
  {
    forall slot | slot in s.slots
      ensures s.slots[slot].holder != Some(t)
    {
      assert SlotOk(s, slot);
    }
  }

  lemma HoldingOnly(s: State, t: TaskId, slot: SlotId)
    requires Inv(s) && t in s.tasks && HeldSlot(s.tasks[t].pc) == Some(slot)
    ensures slot in s.slots && s.slots[slot].holder == Some(t)
    ensures forall other :: other in s.slots && other != slot ==> s.slots[other].holder != Some(t)
  {
    assert TaskOk(s, t);
    forall other | other in s.slots && other != slot
      ensures s.slots[other].holder != Some(t)
    {
      assert SlotOk(s, other);
    }
  }

  /** Releasing a held slot lock. */
  lemma UnlockSlotKeeps(s: State, t: TaskId, slot: SlotId, pc: Pc)
    requires Inv(s) && t in s.tasks && HeldSlot(s.tasks[t].pc) == Some(slot) && slot in s.slots
    requires !HoldsMap(s.tasks[t].pc) && !HoldsMap(pc) && HeldSlot(pc).None?
        && (SlotRef(pc).Some? ==> SlotRef(pc) == Some(slot))
    ensures Inv(Move(SetHolder(s, slot, None), t, pc))
  {
    var s' := Move(SetHolder(s, slot, None), t, pc);
    assert TaskOk(s, t);
    HoldingOnly(s, t, slot);
    assert SlotOk(s, slot);
    assert SlotOk(s', slot);
    FrameKeeps(s, s', t);
  }

  /** Changing the content of a held slot, connections being added or marked down on the way. */
  lemma ContentKeeps(s: State, s': State, t: TaskId, slot: SlotId)
    requires Inv(s) && t in s.tasks && HeldSlot(s.tasks[t].pc) == Some(slot) && slot in s.slots
    requires t in s'.tasks && s'.tasks == s.tasks[t := s'.tasks[t]] && HeldSlot(s'.tasks[t].pc) == Some(slot)
    requires s'.slotOf == s.slotOf && s'.mapHolder == s.mapHolder
    requires slot in s'.slots && s'.slots == s.slots[slot := s.slots[slot].(content := s'.slots[slot].content)]
    requires forall conn :: conn in s.conns ==> conn in s'.conns && s'.conns[conn].slot == s.conns[conn].slot
    requires forall conn :: conn in s'.conns ==> s'.conns[conn].slot in s.slots
    requires TaskOk(s', t) && SlotOk(s', slot)
    ensures Inv(s')
  {
    HoldingOnly(s, t, slot);
    FrameKeeps(s, s', t);
  }

  lemma NewSlotKeeps(s: State, s': State, t: TaskId, slot: SlotId)
    requires Inv(s) && t in s.tasks && s.tasks[t].pc.AtMap? && s.tasks[t].key !in s.slotOf && slot !in s.slots
    requires s' == AddSlot(s, t, slot)
    ensures Inv(s')
  {
    assert TaskOk(s, t);
    NotHolding(s, t);
    assert SlotOk(s', slot);
    FrameKeeps(s, s', t);
  }

  lemma ForgetSlotKeeps(s: State, t: TaskId, slot: SlotId)
    requires Inv(s) && t in s.tasks && s.tasks[t].pc == Removing(slot) && IsCurrent(s, s.tasks[t].key, slot)
    ensures Inv(Move(s.(slotOf := s.slotOf - {s.tasks[t].key}), t, Removed(slot)))
  {
    var s' := Move(s.(slotOf := s.slotOf - {s.tasks[t].key}), t, Removed(slot));
    assert TaskOk(s, t);
    HoldingOnly(s, t, slot);
    assert SlotOk(s, slot);
    assert SlotOk(s', slot);
    FrameKeeps(s, s', t);
  }

  lemma TaskIsOk(s: State, t: TaskId)
    requires Inv(s) && t in s.tasks
    ensures TaskOk(s, t)
    ensures var key := s.tasks[t].key; key in s.slotOf ==> s.slotOf[key] in s.slots && s.slots[s.slotOf[key]].key == key
    ensures HeldSlot(s.tasks[t].pc).Some? ==> SlotOk(s, HeldSlot(s.tasks[t].pc).value)
  {
    assert TaskOk(s, t);
  }

  lemma ConnSlots(s: State)
    requires Inv(s)
    ensures forall conn :: conn in s.conns ==> s.conns[conn].slot in s.slots
  {
  }

  predicate TakesSlot(pc: Pc) {
    pc.WantMap? || pc.AtMap? || pc.FoundSlot? || pc.WantSlot?
  }

  predicate ChecksSlot(pc: Pc) {
    pc.WantCheck? || pc.Checking? || pc.Checked?
  }

  lemma TakeStepKeeps(s: State, s': State, t: TaskId)
    requires Inv(s) && t in s.tasks && GetStep(s, s', t) && TakesSlot(s.tasks[t].pc)
    ensures Inv(s')
  {
    hide Inv;
    hide SlotOk;
    TaskIsOk(s, t);
    match s.tasks[t].pc {
      case WantMap => MoveKeeps(s, s', t, AtMap, Some(t));
      case AtMap =>
        if s.tasks[t].key in s.slotOf {
          MoveKeeps(s, s', t, FoundSlot(s.slotOf[s.tasks[t].key]), s.mapHolder);
        } else {
          var slot :| slot !in s.slots && s' == AddSlot(s, t, slot);
          NewSlotKeeps(s, s', t, slot);
        }
      case FoundSlot(slot) => MoveKeeps(s, s', t, WantSlot(slot), None);
      case WantSlot(slot) => LockSlotKeeps(s, t, slot, WantCheck(slot));
    }
  }

  lemma CheckingStepKeeps(s: State, s': State, t: TaskId, slot: SlotId)
    requires Inv(s) && t in s.tasks && GetStep(s, s', t) && s.tasks[t].pc == Checking(slot)
    ensures Inv(s')
  {
    hide Inv;
    hide SlotOk;
    TaskIsOk(s, t);
    MoveKeeps(s, s', t, Checked(slot, IsCurrent(s, s.tasks[t].key, slot)), s.mapHolder);
  }

  lemma CheckStepKeeps(s: State, s': State, t: TaskId)
    requires Inv(s) && t in s.tasks && GetStep(s, s', t) && ChecksSlot(s.tasks[t].pc)
    ensures Inv(s')
  {
    hide Inv;
    hide SlotOk;
    TaskIsOk(s, t);
    match s.tasks[t].pc {
      case WantCheck(slot) => MoveKeeps(s, s', t, Checking(slot), Some(t));
      case Checking(slot) => CheckingStepKeeps(s, s', t, slot);
      case Checked(slot, current) => MoveKeeps(s, s', t, if current then Current(slot) else Stale(slot), None);
    }
  }

  lemma DialStepKeeps(s: State, s': State, t: TaskId)
    requires Inv(s) && t in s.tasks && GetStep(s, s', t) && !TakesSlot(s.tasks[t].pc) && !ChecksSlot(s.tasks[t].pc)
    ensures Inv(s')
  {
    hide Inv;
    hide SlotOk;
    hide TaskOk;
    TaskIsOk(s, t);
    match s.tasks[t].pc {
      case Stale(slot) => UnlockSlotKeeps(s, t, slot, WantMap);
      case Current(slot) => CurrentStepKeeps(s, s', t, slot);
      case Connecting(slot) => ConnectStepKeeps(s, s', t, slot);
      case Connected(slot, conn) => StoreStepKeeps(s, s', t, slot, conn);
      case Returning(slot) => UnlockSlotKeeps(s, t, slot, Done);
      case ConnectFailed(slot) => UnlockSlotKeeps(s, t, slot, WantEmpty(slot));
    }
  }

  lemma GetStepKeeps(s: State, s': State, t: TaskId)
    requires Inv(s) && t in s.tasks && GetStep(s, s', t)
    ensures Inv(s')
  {
    hide Inv;
    hide GetStep;
    if TakesSlot(s.tasks[t].pc) {
      TakeStepKeeps(s, s', t);
    } else if ChecksSlot(s.tasks[t].pc) {
      CheckStepKeeps(s, s', t);
    } else {
      DialStepKeeps(s, s', t);
    }
  }

  lemma CurrentStepKeeps(s: State, s': State, t: TaskId, slot: SlotId)
    requires Inv(s) && t in s.tasks && s.tasks[t].pc == Current(slot) && GetStep(s, s', t)
    ensures Inv(s')
  {
    hide Inv;
    TaskIsOk(s, t);
    ConnSlots(s);
    var cached := s.slots[slot].content;
    if cached.Some? && cached.value in s.conns && s.conns[cached.value].connected {
      MoveKeeps(s, s', t, Returning(slot), s.mapHolder);
    } else {
      ContentKeeps(s, s', t, slot);
    }
  }

  lemma ConnectStepKeeps(s: State, s': State, t: TaskId, slot: SlotId)
    requires Inv(s) && t in s.tasks && s.tasks[t].pc == Connecting(slot) && GetStep(s, s', t)
    ensures Inv(s')
  {
    hide Inv;
    TaskIsOk(s, t);
    ConnSlots(s);
    if s' == Move(s, t, ConnectFailed(slot)) {
      MoveKeeps(s, s', t, ConnectFailed(slot), s.mapHolder);
    } else {
      assert s'.slots == s.slots[slot := s.slots[slot]];
      ContentKeeps(s, s', t, slot);
    }
  }

  lemma StoreStepKeeps(s: State, s': State, t: TaskId, slot: SlotId, conn: ConnId)
    requires Inv(s) && t in s.tasks && s.tasks[t].pc == Connected(slot, conn) && GetStep(s, s', t)
    ensures Inv(s')
  {
    hide Inv;
    TaskIsOk(s, t);
    ConnSlots(s);
    ContentKeeps(s, s', t, slot);
  }

  lemma ClearingStepKeeps(s: State, s': State, t: TaskId, slot: SlotId, conn: ConnId)
    requires Inv(s) && t in s.tasks && s.tasks[t].pc == Clearing(slot, conn) && ClearStep(s, s', t)
    ensures Inv(s')
  {
    hide Inv;
    TaskIsOk(s, t);
    ConnSlots(s);
    if s.slots[slot].content == Some(conn) {
      ContentKeeps(s, s', t, slot);
    } else {
      MoveKeeps(s, s', t, Cleared(slot, false), s.mapHolder);
    }
  }

  predicate LooksUp(pc: Pc) {
    pc.WantLookup? || pc.AtLookup? || pc.LookedUp?
  }

  lemma LookingStepKeeps(s: State, s': State, t: TaskId, conn: ConnId)
    requires Inv(s) && t in s.tasks && ClearStep(s, s', t) && s.tasks[t].pc == AtLookup(conn)
    ensures Inv(s')
  {
    hide Inv;
    hide SlotOk;
    TaskIsOk(s, t);
    MoveKeeps(s, s', t, s'.tasks[t].pc, s.mapHolder);
  }

  lemma LookupStepKeeps(s: State, s': State, t: TaskId)
    requires Inv(s) && t in s.tasks && ClearStep(s, s', t) && LooksUp(s.tasks[t].pc)
    ensures Inv(s')
  {
    hide Inv;
    hide SlotOk;
    TaskIsOk(s, t);
    match s.tasks[t].pc {
      case WantLookup(conn) => MoveKeeps(s, s', t, AtLookup(conn), Some(t));
      case AtLookup(conn) => LookingStepKeeps(s, s', t, conn);
      case LookedUp(found, conn) => MoveKeeps(s, s', t, s'.tasks[t].pc, None);
    }
  }

  lemma ClearStepKeeps(s: State, s': State, t: TaskId)
    requires Inv(s) && t in s.tasks && ClearStep(s, s', t)
    ensures Inv(s')
  {
    hide Inv;
    hide SlotOk;
    hide TaskOk;
    TaskIsOk(s, t);
    match s.tasks[t].pc {
      case WantClear(slot, conn) => LockSlotKeeps(s, t, slot, Clearing(slot, conn));
      case Clearing(slot, conn) => ClearingStepKeeps(s, s', t, slot, conn);
      case Cleared(slot, took) => UnlockSlotKeeps(s, t, slot, if took then WantEmpty(slot) else Done);
      case _ => LookupStepKeeps(s, s', t);
    }
  }

  predicate AtTheMap(pc: Pc) {
    pc.WantRemove? || pc.Removing? || pc.Removed?
  }

  lemma ForgetStepKeeps(s: State, s': State, t: TaskId)
    requires Inv(s) && t in s.tasks && RemoveStep(s, s', t) && AtTheMap(s.tasks[t].pc)
    ensures Inv(s')
  {
    hide Inv;
    hide SlotOk;
    TaskIsOk(s, t);
    match s.tasks[t].pc {
      case WantRemove(slot) => MoveKeeps(s, s', t, Removing(slot), Some(t));
      case Removing(slot) =>
        if IsCurrent(s, s.tasks[t].key, slot) {
          ForgetSlotKeeps(s, t, slot);
        } else {
          MoveKeeps(s, s', t, Removed(slot), s.mapHolder);
        }
      case Removed(slot) => MoveKeeps(s, s', t, Leaving(slot), None);
    }
  }

  lemma EmptyStepKeeps(s: State, s': State, t: TaskId, slot: SlotId)
    requires Inv(s) && t in s.tasks && RemoveStep(s, s', t) && s.tasks[t].pc == AtEmpty(slot)
    ensures Inv(s')
  {
    hide Inv;
    hide SlotOk;
    TaskIsOk(s, t);
    MoveKeeps(s, s', t, s'.tasks[t].pc, s.mapHolder);
  }

  lemma RemoveStepKeeps(s: State, s': State, t: TaskId)
    requires Inv(s) && t in s.tasks && RemoveStep(s, s', t)
    ensures Inv(s')
  {
    hide Inv;
    hide SlotOk;
    hide TaskOk;
    TaskIsOk(s, t);
    match s.tasks[t].pc {
      case WantEmpty(slot) => LockSlotKeeps(s, t, slot, AtEmpty(slot));
      case AtEmpty(slot) => EmptyStepKeeps(s, s', t, slot);
      case Leaving(slot) => UnlockSlotKeeps(s, t, slot, Done);
      case _ => ForgetStepKeeps(s, s', t);
    }
  }

  lemma CancelStepKeeps(s: State, s': State, t: TaskId)
    requires Inv(s) && t in s.tasks && CancelStep(s, s', t)
    ensures Inv(s')
  {
    hide Inv;
    hide SlotOk;
    TaskIsOk(s, t);
    var pc := s.tasks[t].pc;
    if HeldSlot(pc).Some? {
      UnlockSlotKeeps(s, t, HeldSlot(pc).value, Done);
    } else {
      MoveKeeps(s, s', t, Done, s.mapHolder);
    }
  }

  /** A new task that holds nothing changes no other task's claims, whatever goes down with it. */
  lemma NewTaskKeeps(s: State, s': State, t: TaskId)
    requires Inv(s) && t !in s.tasks && t in s'.tasks && s'.tasks == s.tasks[t := s'.tasks[t]] && TaskOk(s', t)
    requires s'.slotOf == s.slotOf && s'.slots == s.slots && s'.mapHolder == s.mapHolder
    requires s'.conns.Keys == s.conns.Keys && forall conn :: conn in s.conns ==>
        s'.conns[conn].slot == s.conns[conn].slot
    ensures Inv(s')
  {
    forall u | u in s.tasks
      ensures TaskOk(s', u)
    {
      assert TaskOk(s, u);
    }
    forall slot | slot in s.slots
      ensures SlotOk(s', slot)
    {
      assert SlotOk(s, slot);
    }
  }

  lemma HolderIsTask(s: State, t: TaskId)
    requires Inv(s) && t !in s.tasks
    ensures s.mapHolder != Some(t)
  {
  }

  lemma EndSessionKeeps(s: State, t: TaskId, conn: ConnId)
    requires Inv(s) && t !in s.tasks && conn in s.conns && s.conns[conn].slot in s.slots
    ensures Inv(EndSession(s, t, conn))
  {
    hide Inv;
    HolderIsTask(s, t);
    NewTaskKeeps(s, EndSession(s, t, conn), t);
  }

  lemma ArriveStepKeeps(s: State, s': State, t: TaskId)
    requires Inv(s) && ArriveStep(s, s', t)
    ensures Inv(s')
  {
    hide Inv;
    hide EndSession;
    HolderIsTask(s, t);
    if conn :| conn in s.conns && s.conns[conn].slot in s.slots && s' == EndSession(s, t, conn) {
      EndSessionKeeps(s, t, conn);
    } else {
      assert t in s'.tasks && s'.tasks == s.tasks[t := s'.tasks[t]];
      NewTaskKeeps(s, s', t);
    }
  }

  lemma NextKeeps(s: State, s': State, t: TaskId)
    requires Inv(s) && Next(s, s', t)
    ensures Inv(s')
  {
    hide Inv;
    hide GetStep;
    hide ClearStep;
    hide RemoveStep;
    hide CancelStep;
    hide ArriveStep;
    if ArriveStep(s, s', t) {
      ArriveStepKeeps(s, s', t);
    } else if GetStep(s, s', t) {
      GetStepKeeps(s, s', t);
    } else if ClearStep(s, s', t) {
      ClearStepKeeps(s, s', t);
    } else if RemoveStep(s, s', t) {
      RemoveStepKeeps(s, s', t);
    } else {
      CancelStepKeeps(s, s', t);
    }
  }

  /** The invariant holds in every state of every interleaving. */
  lemma {:induction false} RunKeeps(states: seq<State>, who: seq<TaskId>)
    requires IsRun(states, who)
    ensures forall i :: 0 <= i < |states| ==> Inv(states[i])
  {
    hide Next;
    if who != [] {
      var n := |who| - 1;
      assert IsRun(states[..n + 1], who[..n]);
      RunKeeps(states[..n + 1], who[..n]);
      assert Inv(states[..n + 1][n]);
      NextKeeps(states[n], states[n + 1], who[n]);
      assert forall i :: 0 <= i <= n ==> states[..n + 1][i] == states[i];
    }
  }

  // ---------------------------------------------------------------- what the invariant is for

  /**
   * Mutual exclusion per key: an occupied slot is the one the map holds, so at most one connection
   * is cached; at most one connect is under way; and while one is, nothing is cached.
   */
  lemma OneConnectionPerKey(states: seq<State>, who: seq<TaskId>, i: nat)
    requires IsRun(states, who) && i < |states|
    ensures var s := states[i];
            && (forall a, b | a in s.slots && b in s.slots && s.slots[a].content.Some? && s.slots[b].content.Some? ::
                  s.slots[a].key == s.slots[b].key ==> a == b)
            && (forall t, u | t in s.tasks && u in s.tasks && InFlight(s.tasks[t].pc) && InFlight(s.tasks[u].pc) ::
                  s.tasks[t].key == s.tasks[u].key ==> t == u)
            && (forall t, a | t in s.tasks && a in s.slots && InFlight(s.tasks[t].pc)
                && s.slots[a].key == s.tasks[t].key ::
                  s.slots[a].content.None?)
  {
    RunKeeps(states, who);
    InvMeansOnePerKey(states[i]);
  }

  lemma InvMeansOnePerKey(s: State)
    requires Inv(s)
    ensures forall a, b | a in s.slots && b in s.slots && s.slots[a].content.Some? && s.slots[b].content.Some? ::
              s.slots[a].key == s.slots[b].key ==> a == b
    ensures forall t, u | t in s.tasks && u in s.tasks && InFlight(s.tasks[t].pc) && InFlight(s.tasks[u].pc) ::
              s.tasks[t].key == s.tasks[u].key ==> t == u
    ensures forall t, a | t in s.tasks && a in s.slots && InFlight(s.tasks[t].pc) && s.slots[a].key == s.tasks[t].key ::
              s.slots[a].content.None?
  {
    hide Inv;
    forall a, b | a in s.slots && b in s.slots && s.slots[a].content.Some? && s.slots[b].content.Some?
      ensures s.slots[a].key == s.slots[b].key ==> a == b
    {
      SlotIsOk(s, a);
      SlotIsOk(s, b);
    }
    forall t, u | t in s.tasks && u in s.tasks && InFlight(s.tasks[t].pc) && InFlight(s.tasks[u].pc)
      ensures s.tasks[t].key == s.tasks[u].key ==> t == u
    {
      TaskIsOk(s, t);
      TaskIsOk(s, u);
    }
    forall t, a | t in s.tasks && a in s.slots && InFlight(s.tasks[t].pc) && s.slots[a].key == s.tasks[t].key
      ensures s.slots[a].content.None?
    {
      TaskIsOk(s, t);
      SlotIsOk(s, a);
    }
  }

  lemma SlotIsOk(s: State, slot: SlotId)
    requires Inv(s) && slot in s.slots
    ensures SlotOk(s, slot)
  {
  }

  /** What a step may do to a slot it finds occupied by a live connection: leave it, unless sent to clear it. */
  ghost predicate Spares(s: State, s': State, t: TaskId, slot: SlotId, conn: ConnId) {
    && slot in s'.slots
    && (s'.slots[slot].content == Some(conn) || (t in s.tasks && s.tasks[t].pc == Clearing(slot, conn)))
  }

  ghost predicate HoldsLive(s: State, slot: SlotId, conn: ConnId) {
    slot in s.slots && s.slots[slot].content == Some(conn) && conn in s.conns && s.conns[conn].connected
  }

  lemma GetStepSpares(s: State, s': State, t: TaskId, slot: SlotId, conn: ConnId)
    requires Inv(s) && HoldsLive(s, slot, conn) && t in s.tasks && GetStep(s, s', t)
    ensures Spares(s, s', t, slot, conn)
  {
    hide Inv;
    TaskIsOk(s, t);
  }

  lemma OtherStepSpares(s: State, s': State, t: TaskId, slot: SlotId, conn: ConnId)
    requires HoldsLive(s, slot, conn) && t in s.tasks
        && (ClearStep(s, s', t) || RemoveStep(s, s', t) || CancelStep(s, s', t))
    ensures Spares(s, s', t, slot, conn)
  {
  }

  /** A cached live connection leaves its slot only by a task sent to clear that very connection. */
  lemma LiveConnectionClearedOnlyByItsOwn(s: State, s': State, t: TaskId, slot: SlotId, conn: ConnId)
    requires Inv(s) && Next(s, s', t) && HoldsLive(s, slot, conn)
    ensures Spares(s, s', t, slot, conn)
  {
    hide Inv;
    hide GetStep;
    hide ClearStep;
    hide RemoveStep;
    hide CancelStep;
    hide HoldsLive;
    if t in s.tasks {
      if GetStep(s, s', t) {
        GetStepSpares(s, s', t, slot, conn);
      } else {
        OtherStepSpares(s, s', t, slot, conn);
      }
    } else {
      ArrivalSpares(s, s', t, slot, conn);
    }
  }

  /** So in every interleaving: a closing session, or a caller giving one up, clears only its own connection. */
  lemma RunSparesLiveConnections(states: seq<State>, who: seq<TaskId>, i: nat, slot: SlotId, conn: ConnId)
    requires IsRun(states, who) && i < |who| && HoldsLive(states[i], slot, conn)
    ensures Spares(states[i], states[i + 1], who[i], slot, conn)
  {
    hide HoldsLive;
    hide Spares;
    hide Next;
    RunKeeps(states, who);
    LiveConnectionClearedOnlyByItsOwn(states[i], states[i + 1], who[i], slot, conn);
  }

  lemma ArrivalSpares(s: State, s': State, t: TaskId, slot: SlotId, conn: ConnId)
    requires HoldsLive(s, slot, conn) && ArriveStep(s, s', t)
    ensures Spares(s, s', t, slot, conn)
  {
  }

  // ---------------------------------------------------------------- dead connections do not stay

  /** The cleanup of a connection's session is on its way to the slot, or at it. */
  ghost predicate CleanupComing(s: State, slot: SlotId, conn: ConnId) {
    exists u :: u in s.tasks && s.tasks[u].spawned
        && (s.tasks[u].pc == WantClear(slot, conn) || s.tasks[u].pc == Clearing(slot, conn))
  }

  ghost predicate Down(s: State, conn: ConnId) {
    conn in s.conns && !s.conns[conn].connected
  }

  /** A connection that is down while cached, or while about to be, has its cleanup coming. */
  ghost predicate NoLeak(s: State) {
    && (forall slot, conn :: slot in s.slots && s.slots[slot].content == Some(conn) && Down(s, conn) ==>
        CleanupComing(s, slot, conn))
    && (forall t, slot, conn :: t in s.tasks && s.tasks[t].pc == Connected(slot, conn) && Down(s, conn) ==>
        CleanupComing(s, slot, conn))
  }

  /** What a step must not do to keep leaks out. */
  ghost predicate LeakFrame(s: State, s': State, t: TaskId) {
    && t in s'.tasks && s'.tasks == s.tasks[t := s'.tasks[t]]
    && (forall conn :: Down(s', conn) ==> Down(s, conn))
    && (forall slot, conn :: slot in s'.slots && s'.slots[slot].content == Some(conn) ==>
          || (slot in s.slots && s.slots[slot].content == Some(conn))
          || (t in s.tasks && s.tasks[t].pc == Connected(slot, conn)))
    && (s'.tasks[t].pc.Connected? ==> !Down(s', s'.tasks[t].pc.conn))
    && CleanupMoves(s, s', t)
  }

  /** A cleanup on its way comes to the slot; at the slot it leaves only after that connection is gone from it. */
  ghost predicate CleanupMoves(s: State, s': State, t: TaskId)
    requires t in s'.tasks
  {
    t in s.tasks && s.tasks[t].spawned ==>
      var pc, pc' := s.tasks[t].pc, s'.tasks[t].pc;
      && (pc.WantClear? ==> s'.tasks[t].spawned && pc' == Clearing(pc.slot, pc.conn))
      && (pc.Clearing? ==> pc.slot in s'.slots && s'.slots[pc.slot].content != Some(pc.conn))
  }

  lemma LeakFrameKeeps(s: State, s': State, t: TaskId)
    requires Inv(s) && Inv(s') && NoLeak(s) && LeakFrame(s, s', t)
    ensures NoLeak(s')
  {
    forall slot, conn | slot in s'.slots && s'.slots[slot].content == Some(conn) && Down(s', conn)
      ensures CleanupComing(s', slot, conn)
    {
      assert CleanupComing(s, slot, conn);
      CleanupStays(s, s', t, slot, conn);
    }
    forall u, slot, conn | u in s'.tasks && s'.tasks[u].pc == Connected(slot, conn) && Down(s', conn)
      ensures CleanupComing(s', slot, conn)
    {
      assert u != t;
      assert CleanupComing(s, slot, conn);
      TaskIsOk(s, u);
      TaskIsOk(s', u);
      CleanupStaysBeside(s, s', t, u, slot, conn);
    }
  }

  /** The cleanup stays on its way unless it has just emptied the slot of its connection. */
  lemma CleanupStays(s: State, s': State, t: TaskId, slot: SlotId, conn: ConnId)
    requires LeakFrame(s, s', t) && CleanupComing(s, slot, conn) && slot in s'.slots
        && s'.slots[slot].content == Some(conn)
    ensures CleanupComing(s', slot, conn)
  {
    var w :| w in s.tasks && s.tasks[w].spawned
        && (s.tasks[w].pc == WantClear(slot, conn) || s.tasks[w].pc == Clearing(slot, conn));
    assert w in s'.tasks && (w != t ==> s'.tasks[w] == s.tasks[w]);
  }

  /** And it cannot be at the slot while another task holds the slot. */
  lemma CleanupStaysBeside(s: State, s': State, t: TaskId, u: TaskId, slot: SlotId, conn: ConnId)
    requires Inv(s) && LeakFrame(s, s', t) && CleanupComing(s, slot, conn)
    requires u in s.tasks && u != t && s.tasks[u].pc == Connected(slot, conn)
    ensures CleanupComing(s', slot, conn)
  {
    hide Inv;
    var w :| w in s.tasks && s.tasks[w].spawned
        && (s.tasks[w].pc == WantClear(slot, conn) || s.tasks[w].pc == Clearing(slot, conn));
    TaskIsOk(s, u);
    TaskIsOk(s, w);
    assert s.tasks[w].pc == WantClear(slot, conn);
    assert w in s'.tasks && (w != t ==> s'.tasks[w] == s.tasks[w]);
  }

  lemma TakeStepLeakFrame(s: State, s': State, t: TaskId)
    requires t in s.tasks && GetStep(s, s', t) && (TakesSlot(s.tasks[t].pc) || ChecksSlot(s.tasks[t].pc))
    ensures LeakFrame(s, s', t)
  {
  }

  lemma DialStepLeakFrame(s: State, s': State, t: TaskId)
    requires t in s.tasks && GetStep(s, s', t) && !TakesSlot(s.tasks[t].pc) && !ChecksSlot(s.tasks[t].pc)
    ensures LeakFrame(s, s', t)
  {
  }

  lemma ClearStepLeakFrame(s: State, s': State, t: TaskId)
    requires t in s.tasks && ClearStep(s, s', t)
    ensures LeakFrame(s, s', t)
  {
  }

  lemma RemoveStepLeakFrame(s: State, s': State, t: TaskId)
    requires t in s.tasks && RemoveStep(s, s', t)
    ensures LeakFrame(s, s', t)
  {
  }

  lemma CancelStepLeakFrame(s: State, s': State, t: TaskId)
    requires t in s.tasks && CancelStep(s, s', t)
    ensures LeakFrame(s, s', t)
  {
  }

  /** A session's end brings its own cleanup. */
  lemma EndKeepsNoLeak(s: State, s': State, t: TaskId, conn: ConnId)
    requires Inv(s) && NoLeak(s) && t !in s.tasks && conn in s.conns && s.conns[conn].slot in s.slots
    requires s' == EndSession(s, t, conn)
    ensures NoLeak(s')
  {
    var mine := s.conns[conn].slot;
    assert CleanupComing(s', mine, conn) by {
      assert s'.tasks[t].spawned && s'.tasks[t].pc == WantClear(mine, conn);
    }
    forall slot, other | slot in s'.slots && s'.slots[slot].content == Some(other) && Down(s', other)
      ensures CleanupComing(s', slot, other)
    {
      assert SlotOk(s, slot);
      if other != conn {
        assert CleanupComing(s, slot, other);
        OldCleanup(s, s', t, slot, other);
      }
    }
    forall u, slot, other | u in s'.tasks && s'.tasks[u].pc == Connected(slot, other) && Down(s', other)
      ensures CleanupComing(s', slot, other)
    {
      TaskIsOk(s, u);
      if other != conn {
        assert CleanupComing(s, slot, other);
        OldCleanup(s, s', t, slot, other);
      }
    }
  }

  lemma OldCleanup(s: State, s': State, t: TaskId, slot: SlotId, conn: ConnId)
    requires t !in s.tasks && t in s'.tasks && s'.tasks == s.tasks[t := s'.tasks[t]] && CleanupComing(s, slot, conn)
    ensures CleanupComing(s', slot, conn)
  {
    var w :| w in s.tasks && s.tasks[w].spawned
        && (s.tasks[w].pc == WantClear(slot, conn) || s.tasks[w].pc == Clearing(slot, conn));
    assert w in s'.tasks && s'.tasks[w] == s.tasks[w];
  }

  lemma ArrivalKeepsNoLeak(s: State, s': State, t: TaskId)
    requires Inv(s) && Inv(s') && NoLeak(s) && ArriveStep(s, s', t)
    ensures NoLeak(s')
  {
    hide Inv;
    hide NoLeak;
    if conn :| conn in s.conns && s.conns[conn].slot in s.slots && s' == EndSession(s, t, conn) {
      EndKeepsNoLeak(s, s', t, conn);
    } else {
      assert s'.conns == s.conns && s'.slots == s.slots && s'.tasks == s.tasks[t := s'.tasks[t]];
      LeakFrameKeeps(s, s', t);
    }
  }

  lemma NextKeepsNoLeak(s: State, s': State, t: TaskId)
    requires Inv(s) && NoLeak(s) && Next(s, s', t)
    ensures NoLeak(s')
  {
    hide Inv;
    hide NoLeak;
    hide LeakFrame;
    hide GetStep;
    hide ClearStep;
    hide RemoveStep;
    hide CancelStep;
    hide ArriveStep;
    NextKeeps(s, s', t);
    if ArriveStep(s, s', t) {
      ArrivalKeepsNoLeak(s, s', t);
    } else {
      if GetStep(s, s', t) {
        if TakesSlot(s.tasks[t].pc) || ChecksSlot(s.tasks[t].pc) {
          TakeStepLeakFrame(s, s', t);
        } else {
          DialStepLeakFrame(s, s', t);
        }
      } else if ClearStep(s, s', t) {
        ClearStepLeakFrame(s, s', t);
      } else if RemoveStep(s, s', t) {
        RemoveStepLeakFrame(s, s', t);
      } else {
        CancelStepLeakFrame(s, s', t);
      }
      LeakFrameKeeps(s, s', t);
    }
  }

  /** In every interleaving, a cached connection that is down has an unfinished cleanup task on that very slot. */
  lemma {:induction false} DeadConnectionsAreCleared(states: seq<State>, who: seq<TaskId>)
    requires IsRun(states, who)
    ensures forall i :: 0 <= i < |states| ==> NoLeak(states[i])
  {
    hide Next;
    hide NoLeak;
    hide Inv;
    RunKeeps(states, who);
    if who == [] {
      NothingLeaksAtFirst();
    } else {
      var n := |who| - 1;
      assert IsRun(states[..n + 1], who[..n]);
      DeadConnectionsAreCleared(states[..n + 1], who[..n]);
      assert states[..n + 1][n] == states[n];
      NextKeepsNoLeak(states[n], states[n + 1], who[n]);
      assert forall i :: 0 <= i <= n ==> states[..n + 1][i] == states[i];
    }
  }

  lemma NothingLeaksAtFirst()
    ensures NoLeak(EMPTY)
  {
  }

  // ---------------------------------------------------------------- what a call returns

  ghost predicate HasLive(s: State, slot: SlotId) {
    && slot in s.slots && s.slots[slot].content.Some? && s.slots[slot].content.value in s.conns
    && s.conns[s.slots[slot].content.value].connected
  }

  /**
   * What a step of `t` means to its caller. It turns to return only with a connection in its slot, one
   * that is connected now or that it has just dialled itself. It dials only if the slot has none that is
   * connected, and what it has dialled it leaves in the slot. Giving up a connection, it clears it from
   * the slot the map has for its key. A failed dial or a cleared slot is followed by a look whether the
   * slot can go.
   */
  ghost predicate Answers(s: State, s': State, t: TaskId) {
    t in s.tasks && t in s'.tasks ==>
      var pc, pc' := s.tasks[t].pc, s'.tasks[t].pc;
      && (pc'.Returning? && pc != pc' ==>
            && pc'.slot in s'.slots && s'.slots[pc'.slot].content.Some?
            && (HasLive(s', pc'.slot) || pc == Connected(pc'.slot, s'.slots[pc'.slot].content.value)))
      && (pc'.Connecting? && pc != pc' ==> !HasLive(s, pc'.slot))
      && (pc.Current? && HasLive(s, pc.slot) && pc != pc' ==> s' == Move(s, t, Returning(pc.slot)))
      && (pc.Connected? && pc != pc' ==>
          pc.slot in s'.slots && s'.slots[pc.slot].content == Some(pc.conn) && pc' == Returning(pc.slot))
      && (pc.AtLookup? && pc != pc' ==>
            var key := s.tasks[t].key;
            pc' == LookedUp(if key in s.slotOf then Some(s.slotOf[key]) else None, pc.conn))
      && (pc.LookedUp? && pc.found.Some? && pc != pc' ==> pc' == WantClear(pc.found.value, pc.conn))
      && (pc.Clearing? && pc != pc' ==> pc.slot in s'.slots && s'.slots[pc.slot].content != Some(pc.conn))
      && (pc.ConnectFailed? && pc != pc' ==> pc' == WantEmpty(pc.slot))
      && (pc.Cleared? && pc.took && pc != pc' ==> pc' == WantEmpty(pc.slot))
  }

  lemma TakeStepAnswers(s: State, s': State, t: TaskId)
    requires t in s.tasks && GetStep(s, s', t) && (TakesSlot(s.tasks[t].pc) || ChecksSlot(s.tasks[t].pc))
    ensures Answers(s, s', t)
  {
  }

  lemma DialStepAnswers(s: State, s': State, t: TaskId)
    requires t in s.tasks && GetStep(s, s', t) && !TakesSlot(s.tasks[t].pc) && !ChecksSlot(s.tasks[t].pc)
    ensures Answers(s, s', t)
  {
  }

  lemma ClearStepAnswers(s: State, s': State, t: TaskId)
    requires t in s.tasks && ClearStep(s, s', t)
    ensures Answers(s, s', t)
  {
  }

  lemma RemoveStepAnswers(s: State, s': State, t: TaskId)
    requires t in s.tasks && RemoveStep(s, s', t)
    ensures Answers(s, s', t)
  {
  }

  lemma CancelStepAnswers(s: State, s': State, t: TaskId)
    requires t in s.tasks && CancelStep(s, s', t)
    ensures Answers(s, s', t)
  {
  }

  lemma StepAnswers(s: State, s': State, t: TaskId)
    requires Next(s, s', t)
    ensures Answers(s, s', t)
  {
    hide GetStep;
    hide ClearStep;
    hide RemoveStep;
    hide CancelStep;
    hide Answers;
    if t !in s.tasks {
      NewTaskAnswers(s, s', t);
    } else if GetStep(s, s', t) {
      if TakesSlot(s.tasks[t].pc) || ChecksSlot(s.tasks[t].pc) {
        TakeStepAnswers(s, s', t);
      } else {
        DialStepAnswers(s, s', t);
      }
    } else if ClearStep(s, s', t) {
      ClearStepAnswers(s, s', t);
    } else if RemoveStep(s, s', t) {
      RemoveStepAnswers(s, s', t);
    } else {
      CancelStepAnswers(s, s', t);
    }
  }

  lemma NewTaskAnswers(s: State, s': State, t: TaskId)
    requires t !in s.tasks
    ensures Answers(s, s', t)
  {
  }

  /** Who is returning keeps a connection in its slot until it has let go of the slot. */
  ghost predicate ReturnsSomething(s: State) {
    forall t :: t in s.tasks && s.tasks[t].pc.Returning? ==>
      s.tasks[t].pc.slot in s.slots && s.slots[s.tasks[t].pc.slot].content.Some?
  }

  /** Another task's step cannot empty a slot that `u` holds. */
  lemma HeldContentStays(s: State, s': State, t: TaskId, u: TaskId)
    requires Inv(s) && Next(s, s', t) && u in s.tasks && u != t && HeldSlot(s.tasks[u].pc).Some?
    ensures var slot := HeldSlot(s.tasks[u].pc).value;
            slot in s.slots && slot in s'.slots && s'.slots[slot].content == s.slots[slot].content
  {
    hide Inv;
    hide GetStep;
    hide ClearStep;
    hide RemoveStep;
    hide CancelStep;
    hide ArriveStep;
    var slot := HeldSlot(s.tasks[u].pc).value;
    TaskIsOk(s, u);
    if t in s.tasks {
      TaskIsOk(s, t);
      OnlyHolderChanges(s, s', t, slot);
    } else {
      ArrivalChangesNoSlot(s, s', t);
    }
  }

  lemma ArrivalChangesNoSlot(s: State, s': State, t: TaskId)
    requires ArriveStep(s, s', t)
    ensures s'.slots == s.slots
  {
  }

  /** A slot's content is changed only by a task that holds it. */
  lemma OnlyHolderChanges(s: State, s': State, t: TaskId, slot: SlotId)
    requires t in s.tasks && TaskOk(s, t) && Next(s, s', t) && slot in s.slots && s.slots[slot].holder != Some(t)
    ensures slot in s'.slots && s'.slots[slot].content == s.slots[slot].content
  {
    hide GetStep;
    hide ClearStep;
    hide RemoveStep;
    hide CancelStep;
    hide TaskOk;
    if GetStep(s, s', t) {
      if TakesSlot(s.tasks[t].pc) || ChecksSlot(s.tasks[t].pc) {
        TakeChangesNone(s, s', t, slot);
      } else {
        DialChangesHeld(s, s', t, slot);
      }
    } else if ClearStep(s, s', t) {
      ClearChangesHeld(s, s', t, slot);
    } else {
      OtherChangesNone(s, s', t, slot);
    }
  }

  lemma TakeChangesNone(s: State, s': State, t: TaskId, slot: SlotId)
    requires t in s.tasks && GetStep(s, s', t) && (TakesSlot(s.tasks[t].pc) || ChecksSlot(s.tasks[t].pc))
        && slot in s.slots
    ensures slot in s'.slots && s'.slots[slot].content == s.slots[slot].content
  {
  }

  lemma DialChangesHeld(s: State, s': State, t: TaskId, slot: SlotId)
    requires t in s.tasks && TaskOk(s, t) && GetStep(s, s', t) && slot in s.slots && s.slots[slot].holder != Some(t)
    requires !TakesSlot(s.tasks[t].pc) && !ChecksSlot(s.tasks[t].pc)
    ensures slot in s'.slots && s'.slots[slot].content == s.slots[slot].content
  {
  }

  lemma ClearChangesHeld(s: State, s': State, t: TaskId, slot: SlotId)
    requires t in s.tasks && TaskOk(s, t) && ClearStep(s, s', t) && slot in s.slots && s.slots[slot].holder != Some(t)
    ensures slot in s'.slots && s'.slots[slot].content == s.slots[slot].content
  {
  }

  lemma OtherChangesNone(s: State, s': State, t: TaskId, slot: SlotId)
    requires t in s.tasks && (RemoveStep(s, s', t) || CancelStep(s, s', t)) && slot in s.slots
    ensures slot in s'.slots && s'.slots[slot].content == s.slots[slot].content
  {
  }

  lemma NextKeepsReturns(s: State, s': State, t: TaskId)
    requires Inv(s) && ReturnsSomething(s) && Next(s, s', t)
    ensures ReturnsSomething(s')
  {
    hide Inv;
    hide Next;
    StepAnswers(s, s', t);
    NextMovesOne(s, s', t);
    forall u | u in s'.tasks && s'.tasks[u].pc.Returning?
      ensures s'.tasks[u].pc.slot in s'.slots && s'.slots[s'.tasks[u].pc.slot].content.Some?
    {
      if u != t {
        HeldContentStays(s, s', t, u);
      }
    }
  }

  /** A step moves one task, and never leaves one that is returning where it was. */
  lemma NextMovesOne(s: State, s': State, t: TaskId)
    requires Next(s, s', t)
    ensures t in s'.tasks && s'.tasks == s.tasks[t := s'.tasks[t]]
    ensures s'.tasks[t].pc.Returning? ==> t in s.tasks && s.tasks[t].pc != s'.tasks[t].pc
  {
    hide GetStep;
    hide ClearStep;
    hide RemoveStep;
    hide CancelStep;
    if t in s.tasks {
      TaskStepMovesOne(s, s', t);
    }
  }

  lemma TaskStepMovesOne(s: State, s': State, t: TaskId)
    requires TaskStep(s, s', t)
    ensures t in s'.tasks && s'.tasks == s.tasks[t := s'.tasks[t]]
    ensures s'.tasks[t].pc.Returning? ==> s.tasks[t].pc != s'.tasks[t].pc
  {
    hide GetStep;
    hide ClearStep;
    hide RemoveStep;
    hide CancelStep;
    if GetStep(s, s', t) {
      if TakesSlot(s.tasks[t].pc) || ChecksSlot(s.tasks[t].pc) {
        TakeMovesOne(s, s', t);
      } else {
        DialMovesOne(s, s', t);
      }
    } else if ClearStep(s, s', t) {
      ClearMovesOne(s, s', t);
    } else if RemoveStep(s, s', t) {
      RemoveMovesOne(s, s', t);
    } else {
      CancelMovesOne(s, s', t);
    }
  }

  lemma TakeMovesOne(s: State, s': State, t: TaskId)
    requires t in s.tasks && GetStep(s, s', t) && (TakesSlot(s.tasks[t].pc) || ChecksSlot(s.tasks[t].pc))
    ensures t in s'.tasks && s'.tasks == s.tasks[t := s'.tasks[t]]
    ensures !s'.tasks[t].pc.Returning?
  {
  }

  lemma DialMovesOne(s: State, s': State, t: TaskId)
    requires t in s.tasks && GetStep(s, s', t) && !TakesSlot(s.tasks[t].pc) && !ChecksSlot(s.tasks[t].pc)
    ensures t in s'.tasks && s'.tasks == s.tasks[t := s'.tasks[t]]
    ensures s'.tasks[t].pc.Returning? ==> s.tasks[t].pc != s'.tasks[t].pc
  {
  }

  lemma ClearMovesOne(s: State, s': State, t: TaskId)
    requires t in s.tasks && ClearStep(s, s', t)
    ensures t in s'.tasks && s'.tasks == s.tasks[t := s'.tasks[t]]
    ensures !s'.tasks[t].pc.Returning?
  {
  }

  lemma RemoveMovesOne(s: State, s': State, t: TaskId)
    requires t in s.tasks && RemoveStep(s, s', t)
    ensures t in s'.tasks && s'.tasks == s.tasks[t := s'.tasks[t]]
    ensures !s'.tasks[t].pc.Returning?
  {
  }

  lemma CancelMovesOne(s: State, s': State, t: TaskId)
    requires t in s.tasks && CancelStep(s, s', t)
    ensures t in s'.tasks && s'.tasks == s.tasks[t := s'.tasks[t]]
    ensures !s'.tasks[t].pc.Returning?
  {
  }

  /** In every interleaving every step answers so, and a call returns with a connection in its slot. */
  lemma {:induction false} RunAnswers(states: seq<State>, who: seq<TaskId>)
    requires IsRun(states, who)
    ensures forall i :: 0 <= i < |who| ==> Answers(states[i], states[i + 1], who[i])
    ensures forall i :: 0 <= i < |states| ==> ReturnsSomething(states[i])
  {
    hide Next;
    hide Inv;
    hide Answers;
    hide ReturnsSomething;
    RunKeeps(states, who);
    if who == [] {
      NobodyReturns();
    } else {
      var n := |who| - 1;
      assert IsRun(states[..n + 1], who[..n]);
      RunAnswers(states[..n + 1], who[..n]);
      assert forall i :: 0 <= i <= n ==> states[..n + 1][i] == states[i];
      assert forall i :: 0 <= i < n ==> who[..n][i] == who[i];
      StepAnswers(states[n], states[n + 1], who[n]);
      NextKeepsReturns(states[n], states[n + 1], who[n]);
      forall i | 0 <= i < n
        ensures Answers(states[i], states[i + 1], who[i])
      {
        assert Answers(states[..n + 1][i], states[..n + 1][i + 1], who[..n][i]);
      }
    }
  }

  lemma NobodyReturns()
    ensures ReturnsSomething(EMPTY)
  {
  }

  // ---------------------------------------------------------------- empty slots do not stay either

  /** A task that will fill the slot, or see to it that an empty one goes. */
  predicate SeesTo(pc: Pc, slot: SlotId) {
    match pc
    case FoundSlot(s) => s == slot
    case WantSlot(s) => s == slot
    case WantCheck(s) => s == slot
    case Checking(s) => s == slot
    case Checked(s, current) => s == slot && current
    case Current(s) => s == slot
    case Connecting(s) => s == slot
    case Connected(s, _) => s == slot
    case ConnectFailed(s) => s == slot
    case Cleared(s, took) => s == slot && took
    case WantEmpty(s) => s == slot
    case AtEmpty(s) => s == slot
    case WantRemove(s) => s == slot
    case Removing(s) => s == slot
    case _ => false
  }

  /** Every empty slot the map holds has a task that sees to it. */
  ghost predicate NoOrphan(s: State) {
    forall key :: key in s.slotOf && s.slotOf[key] in s.slots && s.slots[s.slotOf[key]].content.None? ==>
      SeenTo(s, s.slotOf[key])
  }

  ghost predicate SeenTo(s: State, slot: SlotId) {
    exists u :: u in s.tasks && SeesTo(s.tasks[u].pc, slot)
  }

  /**
   * What a step of `t` may do to empty slots: make one it sees to, and drop its care only of one that
   * is filled or gone.
   */
  ghost predicate CareFrame(s: State, s': State, t: TaskId) {
    && t in s'.tasks && s'.tasks == s.tasks[t := s'.tasks[t]]
    && (forall key :: key in s'.slotOf && s'.slotOf[key] in s'.slots && s'.slots[s'.slotOf[key]].content.None? ==>
          var slot := s'.slotOf[key];
          || SeesTo(s'.tasks[t].pc, slot)
          || (&& key in s.slotOf && s.slotOf[key] == slot && slot in s.slots && s.slots[slot].content.None?
              && (t in s.tasks ==> !SeesTo(s.tasks[t].pc, slot))))
  }

  lemma CareFrameKeeps(s: State, s': State, t: TaskId)
    requires NoOrphan(s) && CareFrame(s, s', t)
    ensures NoOrphan(s')
  {
    forall key | key in s'.slotOf && s'.slotOf[key] in s'.slots && s'.slots[s'.slotOf[key]].content.None?
      ensures SeenTo(s', s'.slotOf[key])
    {
      var slot := s'.slotOf[key];
      if SeesTo(s'.tasks[t].pc, slot) {
        assert t in s'.tasks;
      } else {
        assert SeenTo(s, slot);
        var u :| u in s.tasks && SeesTo(s.tasks[u].pc, slot);
        assert u != t && s'.tasks[u] == s.tasks[u];
      }
    }
  }

  lemma TakeStepCares(s: State, s': State, t: TaskId)
    requires t in s.tasks && TaskOk(s, t) && GetStep(s, s', t) && TakesSlot(s.tasks[t].pc)
    ensures CareFrame(s, s', t)
  {
  }

  lemma CheckStepCares(s: State, s': State, t: TaskId)
    requires t in s.tasks && KeysMatch(s) && TaskOk(s, t) && GetStep(s, s', t) && ChecksSlot(s.tasks[t].pc)
    ensures CareFrame(s, s', t)
  {
  }

  /** The map holds a slot only under the slot's own key. */
  ghost predicate KeysMatch(s: State) {
    forall key :: key in s.slotOf ==> s.slotOf[key] in s.slots && s.slots[s.slotOf[key]].key == key
  }

  lemma DialStepCares(s: State, s': State, t: TaskId)
    requires t in s.tasks && TaskOk(s, t) && GetStep(s, s', t) && !TakesSlot(s.tasks[t].pc)
        && !ChecksSlot(s.tasks[t].pc)
    ensures CareFrame(s, s', t)
  {
  }

  lemma ClearStepCares(s: State, s': State, t: TaskId)
    requires t in s.tasks && TaskOk(s, t) && ClearStep(s, s', t)
    ensures CareFrame(s, s', t)
  {
  }

  lemma RemoveStepCares(s: State, s': State, t: TaskId)
    requires t in s.tasks && KeysMatch(s) && TaskOk(s, t) && RemoveStep(s, s', t)
    ensures CareFrame(s, s', t)
  {
  }

  lemma ArrivalCares(s: State, s': State, t: TaskId)
    requires ArriveStep(s, s', t)
    ensures CareFrame(s, s', t)
  {
  }

  lemma KeysDoMatch(s: State)
    requires Inv(s)
    ensures KeysMatch(s)
  {
  }

  lemma NextKeepsNoOrphan(s: State, s': State, t: TaskId)
    requires Inv(s) && NoOrphan(s) && Next(s, s', t) && !(t in s.tasks && CancelStep(s, s', t))
    ensures NoOrphan(s')
  {
    hide Inv;
    hide NoOrphan;
    hide CareFrame;
    hide GetStep;
    hide ClearStep;
    hide RemoveStep;
    hide CancelStep;
    hide ArriveStep;
    hide TaskOk;
    KeysDoMatch(s);
    if ArriveStep(s, s', t) {
      ArrivalCares(s, s', t);
    } else {
      TaskIsOk(s, t);
      if GetStep(s, s', t) {
        if TakesSlot(s.tasks[t].pc) {
          TakeStepCares(s, s', t);
        } else if ChecksSlot(s.tasks[t].pc) {
          CheckStepCares(s, s', t);
        } else {
          DialStepCares(s, s', t);
        }
      } else if ClearStep(s, s', t) {
        ClearStepCares(s, s', t);
      } else {
        RemoveStepCares(s, s', t);
      }
    }
    CareFrameKeeps(s, s', t);
  }

  /** No step of the run cancels a call. */
  ghost predicate NoCancel(states: seq<State>, who: seq<TaskId>)
    requires |states| == |who| + 1
  {
    forall i :: 0 <= i < |who| ==> !(who[i] in states[i].tasks && CancelStep(states[i], states[i + 1], who[i]))
  }

  /**
   * As long as no call is cancelled, every empty slot in the map has a task that fills it or sees it
   * removed; so when all tasks are done the map holds connections and nothing else.
   */
  lemma {:induction false} EmptySlotsGo(states: seq<State>, who: seq<TaskId>)
    requires IsRun(states, who) && NoCancel(states, who)
    ensures forall i :: 0 <= i < |states| ==> NoOrphan(states[i])
    ensures var s := states[|who|];
            (forall t :: t in s.tasks ==> s.tasks[t].pc.Done?) ==>
              forall key :: key in s.slotOf ==> s.slotOf[key] in s.slots && s.slots[s.slotOf[key]].content.Some?
  {
    hide Next;
    hide CancelStep;
    hide Inv;
    RunKeeps(states, who);
    if who != [] {
      hide NoOrphan;
      var n := |who| - 1;
      assert IsRun(states[..n + 1], who[..n]);
      assert NoCancel(states[..n + 1], who[..n]);
      EmptySlotsGo(states[..n + 1], who[..n]);
      assert states[..n + 1][n] == states[n];
      NextKeepsNoOrphan(states[n], states[n + 1], who[n]);
      assert forall i :: 0 <= i <= n ==> states[..n + 1][i] == states[i];
    }
    AtRestAllFilled(states[|who|]);
  }

  lemma AtRestAllFilled(s: State)
    requires Inv(s) && NoOrphan(s)
    ensures (forall t :: t in s.tasks ==> s.tasks[t].pc.Done?) ==>
              forall key :: key in s.slotOf ==> s.slotOf[key] in s.slots && s.slots[s.slotOf[key]].content.Some?
  {
    hide Inv;
    KeysDoMatch(s);
  }

  // ---------------------------------------------------------------- progress

  /** A task that can take a step now: it waits for nothing, or for a lock that is free. */
  ghost predicate CanRun(s: State, t: TaskId) {
    && t in s.tasks && !s.tasks[t].pc.Done?
    && (WaitsForMap(s.tasks[t].pc) ==> s.mapHolder.None?)
    && (WaitsForSlot(s.tasks[t].pc).Some? ==>
          WaitsForSlot(s.tasks[t].pc).value in s.slots && s.slots[WaitsForSlot(s.tasks[t].pc).value].holder.None?)
  }

  /** The two lock levels never deadlock: while any task is unfinished, some task can run. */
  lemma SomeTaskCanRun(s: State, t: TaskId) returns (u: TaskId)
    requires Inv(s) && t in s.tasks && !s.tasks[t].pc.Done?
    ensures CanRun(s, u)
  {
    assert TaskOk(s, t);
    if s.mapHolder.Some? {
      return s.mapHolder.value;
    }
    u := t;
    var wanted := WaitsForSlot(s.tasks[t].pc);
    if wanted.Some? && s.slots[wanted.value].holder.Some? {
      assert SlotOk(s, wanted.value);
      u := s.slots[wanted.value].holder.value;
    }
  }

  predicate InGet(pc: Pc) {
    TakesSlot(pc) || ChecksSlot(pc) || pc.Stale? || pc.Current? || InFlight(pc) || pc.Returning? || pc.ConnectFailed?
  }

  lemma GetHasStep(s: State, t: TaskId) returns (s': State)
    requires CanRun(s, t) && TaskOk(s, t) && InGet(s.tasks[t].pc)
    ensures GetStep(s, s', t)
  {
    var key := s.tasks[t].key;
    match s.tasks[t].pc {
      case WantMap => s' := LockMap(s, t, AtMap);
      case AtMap =>
        if key in s.slotOf {
          s' := Move(s, t, FoundSlot(s.slotOf[key]));
        } else {
          var slot := FreshId(s.slots.Keys);
          s' := AddSlot(s, t, slot);
        }
      case FoundSlot(slot) => s' := UnlockMap(s, t, WantSlot(slot));
      case WantSlot(slot) => s' := Move(SetHolder(s, slot, Some(t)), t, WantCheck(slot));
      case WantCheck(slot) => s' := LockMap(s, t, Checking(slot));
      case Checking(slot) => s' := Move(s, t, Checked(slot, IsCurrent(s, key, slot)));
      case Checked(slot, current) => s' := UnlockMap(s, t, if current then Current(slot) else Stale(slot));
      case Stale(slot) => s' := Move(SetHolder(s, slot, None), t, WantMap);
      case Current(slot) =>
        var cached := s.slots[slot].content;
        if cached.Some? && cached.value in s.conns && s.conns[cached.value].connected {
          s' := Move(s, t, Returning(slot));
        } else {
          s' := Move(Disconnect(SetContent(s, slot, None), cached), t, Connecting(slot));
        }
      case Connecting(slot) => s' := Move(s, t, ConnectFailed(slot));
      case Connected(slot, conn) => s' := Move(SetContent(s, slot, Some(conn)), t, Returning(slot));
      case Returning(slot) => s' := Move(SetHolder(s, slot, None), t, Done);
      case ConnectFailed(slot) => s' := Move(SetHolder(s, slot, None), t, WantEmpty(slot));
    }
  }

  lemma ClearHasStep(s: State, t: TaskId) returns (s': State)
    requires CanRun(s, t) && TaskOk(s, t) && !InGet(s.tasks[t].pc)
    ensures ClearStep(s, s', t) || RemoveStep(s, s', t)
  {
    var key := s.tasks[t].key;
    match s.tasks[t].pc {
      case WantLookup(conn) => s' := LockMap(s, t, AtLookup(conn));
      case AtLookup(conn) => s' := Move(s, t, LookedUp(if key in s.slotOf then Some(s.slotOf[key]) else None, conn));
      case LookedUp(found, conn) => s' := UnlockMap(s, t, if found.Some? then WantClear(found.value, conn) else Done);
      case WantClear(slot, conn) => s' := Move(SetHolder(s, slot, Some(t)), t, Clearing(slot, conn));
      case Clearing(slot, conn) =>
        s' := if s.slots[slot].content == Some(conn) then Move(SetContent(s, slot, None), t, Cleared(slot, true))
            else Move(s, t, Cleared(slot, false));
      case Cleared(slot, took) => s' := Move(SetHolder(s, slot, None), t, if took then WantEmpty(slot) else Done);
      case WantEmpty(slot) => s' := Move(SetHolder(s, slot, Some(t)), t, AtEmpty(slot));
      case AtEmpty(slot) => s' := Move(s, t, if s.slots[slot].content.Some? then Leaving(slot) else WantRemove(slot));
      case WantRemove(slot) => s' := LockMap(s, t, Removing(slot));
      case Removing(slot) =>
          s' := if IsCurrent(s, key, slot) then Move(s.(slotOf := s.slotOf - {key}), t, Removed(slot))
              else Move(s, t, Removed(slot));
      case Removed(slot) => s' := UnlockMap(s, t, Leaving(slot));
      case Leaving(slot) => s' := Move(SetHolder(s, slot, None), t, Done);
    }
  }

  /** A task that can run has a step to take. */
  lemma RunnableHasStep(s: State, t: TaskId) returns (s': State)
    requires Inv(s) && CanRun(s, t)
    ensures TaskStep(s, s', t)
  {
    hide Inv;
    hide GetStep;
    hide ClearStep;
    hide RemoveStep;
    TaskIsOk(s, t);
    if InGet(s.tasks[t].pc) {
      s' := GetHasStep(s, t);
    } else {
      s' := ClearHasStep(s, t);
    }
  }

  lemma {:induction false} FreshId(ids: set<nat>) returns (id: nat)
    ensures forall other :: other in ids ==> other < id
  {
    if ids == {} {
      id := 0;
    } else {
      var some :| some in ids;
      id := FreshId(ids - {some});
      id := if id <= some then some + 1 else id;
      assert forall other :: other in ids ==> other == some || other in ids - {some};
    }
  }
}
