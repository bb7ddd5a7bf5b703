/**
 * The relay's namespace registry as a value: who owns which namespace. `log` lists the notifications
 * its changes give rise to, in the order in which the changes were made under the lock. Sending them is
 * another matter: they go out after the lock is given up, see the module NamespaceReplica.
 */
module NamespaceSpec {
  import opened Options

  type Namespace = seq<string>

  /** The unscoped bucket has the empty scope key. */
  const UNSCOPED := ""

  datatype Key = Key(scope: string, namespace: Namespace)

  type LocalId = nat

  type SourceId = nat

  /** `remote` names the source the entry's weak reference points at, dead or alive. */
  datatype Entry = Entry(local: Option<LocalId>, remote: Option<SourceId>)

  /** A shared remote source; with no handles left its drop has begun but not finished. */
  datatype RemoteSource = RemoteSource(key: Key, handles: nat)

  datatype Change = Change(scope: Option<string>, namespace: Namespace, added: bool)

  datatype Registry = Registry(
    entries: map<Key, Entry>, locals: map<LocalId, Key>, sources: map<SourceId, RemoteSource>, nextId: nat,
    log: seq<Change>)

  const EMPTY := Registry(map[], map[], map[], 0, [])

  function ScopeKey(scope: Option<string>): string {
    if scope.Some? then scope.value else UNSCOPED
  }

  function ScopeOption(scopeKey: string): Option<string> {
    if scopeKey == UNSCOPED then None else Some(scopeKey)
  }

  function Notify(key: Key, added: bool): Change {
    Change(ScopeOption(key.scope), key.namespace, added)
  }

  /** A weak reference upgrades while its source has handles. */
  predicate Upgrades(r: Registry, remote: Option<SourceId>) {
    remote.Some? && remote.value in r.sources && 0 < r.sources[remote.value].handles
  }

  datatype Action =
    | RegisterLocal(scope: Option<string>, namespace: Namespace)
    | DropLocal(local: LocalId)
    | RegisterRemote(scope: Option<string>, namespace: Namespace)
    | ReleaseRemote(source: SourceId)
    | FinishDrop(source: SourceId)

  /** An action its caller can take: handles and registrations can only be given up while held. */
  predicate Enabled(r: Registry, action: Action) {
    match action
    case DropLocal(local) => local in r.locals
    case ReleaseRemote(source) => source in r.sources && 0 < r.sources[source].handles
    case FinishDrop(source) => source in r.sources && r.sources[source].handles == 0
    case _ => true
  }

  /** A second local registration for the same key is refused and changes nothing. */
  function AfterRegisterLocal(r: Registry, key: Key): Registry {
    var id := r.nextId;
    if key !in r.entries then
      r.(entries := r.entries[key := Entry(Some(id), None)], locals := r.locals[id := key], nextId := id + 1,
         log := r.log + [Notify(key, true)])
    else if r.entries[key].local.Some? then r
    else
      var shared := r.entries[key].(local := Some(id));
      r.(entries := r.entries[key := shared], locals := r.locals[id := key], nextId := id + 1)
  }

  function AfterDropLocal(r: Registry, local: LocalId): Registry
    requires local in r.locals
  {
    var key := r.locals[local];
    var gone := r.(locals := r.locals - {local});
    if key !in r.entries then gone
    else if r.entries[key].local.Some? && !Upgrades(r, r.entries[key].remote) then
      gone.(entries := r.entries - {key}, log := r.log + [Notify(key, false)])
    else gone.(entries := r.entries[key := r.entries[key].(local := None)])
  }

  function AfterRegisterRemote(r: Registry, key: Key): Registry {
    var id := r.nextId;
    var fresh' := r.sources[id := RemoteSource(key, 1)];
    if key !in r.entries then
      r.(entries := r.entries[key := Entry(None, Some(id))], sources := fresh', nextId := id + 1,
         log := r.log + [Notify(key, true)])
    else if Upgrades(r, r.entries[key].remote) then
      var shared := r.entries[key].remote.value;
      r.(sources := r.sources[shared := r.sources[shared].(handles := r.sources[shared].handles + 1)])
    else r.(entries := r.entries[key := r.entries[key].(remote := Some(id))], sources := fresh', nextId := id + 1)
  }

  function AfterReleaseRemote(r: Registry, source: SourceId): Registry
    requires source in r.sources && 0 < r.sources[source].handles
  {
    r.(sources := r.sources[source := r.sources[source].(handles := r.sources[source].handles - 1)])
  }

  /** The source's drop runs: it clears the entry only if the entry still points at it. */
  function AfterFinishDrop(r: Registry, source: SourceId): Registry
    requires source in r.sources
  {
    var key := r.sources[source].key;
    var gone := r.(sources := r.sources - {source});
    if key !in r.entries || r.entries[key].remote != Some(source) then gone
    else if r.entries[key].local.None? then gone.(entries := r.entries - {key}, log := r.log + [Notify(key, false)])
    else gone.(entries := r.entries[key := r.entries[key].(remote := None)])
  }

  function After(r: Registry, action: Action): Registry
    requires Enabled(r, action)
  {
    match action
    case RegisterLocal(scope, namespace) => AfterRegisterLocal(r, Key(ScopeKey(scope), namespace))
    case DropLocal(local) => AfterDropLocal(r, local)
    case RegisterRemote(scope, namespace) => AfterRegisterRemote(r, Key(ScopeKey(scope), namespace))
    case ReleaseRemote(source) => AfterReleaseRemote(r, source)
    case FinishDrop(source) => AfterFinishDrop(r, source)
  }

  // ---------------------------------------------------------------- ownership

  ghost predicate LiveLocal(r: Registry, key: Key) {
    exists local :: local in r.locals && r.locals[local] == key
  }

  ghost predicate LiveRemote(r: Registry, key: Key) {
    exists source :: source in r.sources && r.sources[source].key == key && 0 < r.sources[source].handles
  }

  /** Some source of this key has lost its handles but not yet run its drop. */
  ghost predicate DropPending(r: Registry, key: Key) {
    exists source :: source in r.sources && r.sources[source].key == key && r.sources[source].handles == 0
  }

  ghost predicate LocalOwns(r: Registry, local: LocalId)
    requires local in r.locals
  {
    local < r.nextId && r.locals[local] in r.entries && r.entries[r.locals[local]].local == Some(local)
  }

  ghost predicate SourceOwns(r: Registry, source: SourceId)
    requires source in r.sources
  {
    && source < r.nextId
    && (0 < r.sources[source].handles ==>
          r.sources[source].key in r.entries && r.entries[r.sources[source].key].remote == Some(source))
  }

  ghost predicate EntryOwned(r: Registry, key: Key)
    requires key in r.entries
  {
    var entry := r.entries[key];
    && (entry.local.Some? || entry.remote.Some?)
    && (entry.local.Some? ==> entry.local.value in r.locals && r.locals[entry.local.value] == key)
    && (entry.remote.Some? ==> entry.remote.value in r.sources && r.sources[entry.remote.value].key == key)
  }

  /** Entries and owners name each other; only a source whose drop is pending may be left behind. */
  ghost predicate OwnershipInv(r: Registry) {
    && (forall local :: local in r.locals ==> LocalOwns(r, local))
    && (forall source :: source in r.sources ==> SourceOwns(r, source))
    && (forall key :: key in r.entries ==> EntryOwned(r, key))
  }

  /** The notifications, replayed on a set of keys. */
  function Applied(keys: set<Key>, change: Change): set<Key> {
    var key := Key(ScopeKey(change.scope), change.namespace);
    if change.added then keys + {key} else keys - {key}
  }

  function Replay(changes: seq<Change>, keys: set<Key>): set<Key> {
    if changes == [] then keys else Applied(Replay(changes[..|changes| - 1], keys), changes[|changes| - 1])
  }

  /** The log tells exactly which namespaces are registered. */
  ghost predicate LogInv(r: Registry) {
    Replay(r.log, {}) == r.entries.Keys
  }

  /** Notifications never carry the empty scope: the unscoped bucket is announced as no scope. */
  ghost predicate Normalized(changes: seq<Change>) {
    forall i :: 0 <= i < |changes| ==> changes[i].scope != Some(UNSCOPED)
  }

  /**
   * A registry action gives rise to at most one notification, and that notification is its whole effect
   * on the keys.
   */
  lemma ActionIsItsNotification(r: Registry, action: Action)
    requires Enabled(r, action)
    ensures var r' := After(r, action);
            || (r'.log == r.log && r'.entries.Keys == r.entries.Keys)
            || exists change :: r'.log == r.log + [change] && r'.entries.Keys == Applied(r.entries.Keys, change)
                && change.scope != Some(UNSCOPED)
  {
    var r' := After(r, action);
    match action {
      case RegisterLocal(scope, namespace) => NotifyIs(Key(ScopeKey(scope), namespace), r.entries.Keys);
      case DropLocal(local) => NotifyIs(r.locals[local], r.entries.Keys);
      case RegisterRemote(scope, namespace) => NotifyIs(Key(ScopeKey(scope), namespace), r.entries.Keys);
      case ReleaseRemote(source) =>
      case FinishDrop(source) => NotifyIs(r.sources[source].key, r.entries.Keys);
    }
    if r'.log != r.log {
      var change := r'.log[|r.log|];
      assert r'.log == r.log + [change];
      assert r'.entries.Keys == Applied(r.entries.Keys, change);
    } else {
      assert r'.entries.Keys == r.entries.Keys;
    }
  }

  lemma NotifyIs(key: Key, keys: set<Key>)
    ensures Notify(key, true).scope != Some(UNSCOPED) && Notify(key, false).scope != Some(UNSCOPED)
    ensures Applied(keys, Notify(key, true)) == keys + {key}
    ensures Applied(keys, Notify(key, false)) == keys - {key}
  {
  }

  lemma ReplaySnoc(changes: seq<Change>, change: Change, keys: set<Key>)
    ensures Replay(changes + [change], keys) == Applied(Replay(changes, keys), change)
  {
    assert (changes + [change])[..|changes|] == changes;
  }

  lemma ActionKeepsLog(r: Registry, action: Action)
    requires Enabled(r, action) && LogInv(r) && Normalized(r.log)
    ensures LogInv(After(r, action)) && Normalized(After(r, action).log)
  {
    hide After;
    hide Replay;
    ActionIsItsNotification(r, action);
    var r' := After(r, action);
    if r'.log != r.log {
      var change :| r'.log == r.log + [change] && r'.entries.Keys == Applied(r.entries.Keys, change)
          && change.scope != Some(UNSCOPED);
      ReplaySnoc(r.log, change, {});
    }
  }

  /** Every action, in any order, keeps owners and entries in step. */
  lemma ActionKeepsOwnership(r: Registry, action: Action)
    requires Enabled(r, action) && OwnershipInv(r)
    ensures OwnershipInv(After(r, action))
  {
    match action {
      case RegisterLocal(scope, namespace) => RegisterLocalKeeps(r, Key(ScopeKey(scope), namespace));
      case DropLocal(local) => DropLocalKeeps(r, local);
      case RegisterRemote(scope, namespace) => RegisterRemoteKeeps(r, Key(ScopeKey(scope), namespace));
      case ReleaseRemote(source) => HandlesKeep(r, source, r.sources[source].handles - 1);
      case FinishDrop(source) => FinishDropKeeps(r, source);
    }
  }

  lemma RegisterLocalKeeps(r: Registry, key: Key)
    requires OwnershipInv(r)
    ensures OwnershipInv(AfterRegisterLocal(r, key))
  {
    var r', id := AfterRegisterLocal(r, key), r.nextId;
    assert id !in r.locals by { assert id in r.locals ==> LocalOwns(r, id); }
    assert key in r.entries ==> EntryOwned(r, key);
    forall local | local in r'.locals
      ensures LocalOwns(r', local)
    {
      assert local in r.locals ==> LocalOwns(r, local);
    }
    forall source | source in r'.sources
      ensures SourceOwns(r', source)
    {
      assert source in r.sources ==> SourceOwns(r, source);
    }
    forall k | k in r'.entries
      ensures EntryOwned(r', k)
    {
      assert k in r.entries ==> EntryOwned(r, k);
    }
  }

  lemma DropLocalKeeps(r: Registry, local: LocalId)
    requires OwnershipInv(r) && local in r.locals
    ensures OwnershipInv(AfterDropLocal(r, local))
  {
    var r' := AfterDropLocal(r, local);
    forall local | local in r'.locals
      ensures LocalOwns(r', local)
    {
      assert local in r.locals ==> LocalOwns(r, local);
    }
    forall source | source in r'.sources
      ensures SourceOwns(r', source)
    {
      assert source in r.sources ==> SourceOwns(r, source);
    }
    forall k | k in r'.entries
      ensures EntryOwned(r', k)
    {
      assert k in r.entries ==> EntryOwned(r, k);
    }
  }

  lemma RegisterRemoteKeeps(r: Registry, key: Key)
    requires OwnershipInv(r)
    ensures OwnershipInv(AfterRegisterRemote(r, key))
  {
    if key in r.entries && Upgrades(r, r.entries[key].remote) {
      HandlesKeep(r, r.entries[key].remote.value, r.sources[r.entries[key].remote.value].handles + 1);
    } else {
      NewSourceKeeps(r, key);
    }
  }

  /** Handle counts matter only in being zero. */
  lemma HandlesKeep(r: Registry, source: SourceId, handles: nat)
    requires OwnershipInv(r) && source in r.sources && 0 < r.sources[source].handles
    ensures OwnershipInv(r.(sources := r.sources[source := r.sources[source].(handles := handles)]))
  {
    var r' := r.(sources := r.sources[source := r.sources[source].(handles := handles)]);
    assert SourceOwns(r, source);
    forall local | local in r'.locals
      ensures LocalOwns(r', local)
    {
      assert LocalOwns(r, local);
    }
    forall other | other in r'.sources
      ensures SourceOwns(r', other)
    {
      assert SourceOwns(r, other);
    }
    forall k | k in r'.entries
      ensures EntryOwned(r', k)
    {
      assert EntryOwned(r, k);
    }
  }

  lemma NewSourceKeeps(r: Registry, key: Key)
    requires OwnershipInv(r) && (key in r.entries ==> !Upgrades(r, r.entries[key].remote))
    ensures OwnershipInv(AfterRegisterRemote(r, key))
  {
    var r', id := AfterRegisterRemote(r, key), r.nextId;
    assert id !in r.sources by { assert id in r.sources ==> SourceOwns(r, id); }
    forall local | local in r'.locals
      ensures LocalOwns(r', local)
    {
      assert LocalOwns(r, local);
    }
    forall source | source in r'.sources
      ensures SourceOwns(r', source)
    {
      assert source != id ==> SourceOwns(r, source);
    }
    forall k | k in r'.entries
      ensures EntryOwned(r', k)
    {
      assert k in r.entries ==> EntryOwned(r, k);
    }
  }

  lemma FinishDropKeeps(r: Registry, source: SourceId)
    requires OwnershipInv(r) && source in r.sources && r.sources[source].handles == 0
    ensures OwnershipInv(AfterFinishDrop(r, source))
  {
    var r', key := AfterFinishDrop(r, source), r.sources[source].key;
    assert key in r.entries ==> EntryOwned(r, key);
    forall local | local in r'.locals
      ensures LocalOwns(r', local)
    {
      assert local in r.locals ==> LocalOwns(r, local);
    }
    forall other | other in r'.sources
      ensures SourceOwns(r', other)
    {
      assert SourceOwns(r, other);
    }
    forall k | k in r'.entries
      ensures EntryOwned(r', k)
    {
      assert EntryOwned(r, k);
    }
  }

  // ---------------------------------------------------------------- whole runs

  ghost predicate IsRun(states: seq<Registry>, actions: seq<Action>) {
    && |states| == |actions| + 1
    && states[0] == EMPTY
    && forall i :: 0 <= i < |actions| ==>
        Enabled(states[i], actions[i]) && states[i + 1] == After(states[i], actions[i])
  }

  lemma {:induction false} RunKeepsRegistry(states: seq<Registry>, actions: seq<Action>)
    requires IsRun(states, actions)
    ensures forall i :: 0 <= i < |states| ==> OwnershipInv(states[i]) && LogInv(states[i]) && Normalized(states[i].log)
  {
    hide OwnershipInv;
    hide LogInv;
    hide After;
    if actions == [] {
      EmptyKeepsRegistry();
    } else {
      var n := |actions| - 1;
      assert IsRun(states[..n + 1], actions[..n]);
      RunKeepsRegistry(states[..n + 1], actions[..n]);
      assert states[..n + 1][n] == states[n];
      ActionKeepsOwnership(states[n], actions[n]);
      ActionKeepsLog(states[n], actions[n]);
      assert forall i :: 0 <= i <= n ==> states[..n + 1][i] == states[i];
    }
  }

  lemma EmptyKeepsRegistry()
    ensures OwnershipInv(EMPTY) && LogInv(EMPTY) && Normalized(EMPTY.log)
  {
  }

  /**
   * A live owner keeps its namespace registered, and an entry has a local route or a source that has
   * not finished dropping.
   */
  lemma OwnersAndEntries(r: Registry, key: Key)
    requires OwnershipInv(r)
    ensures LiveLocal(r, key) || LiveRemote(r, key) ==> key in r.entries
    ensures key in r.entries ==> LiveLocal(r, key) || LiveRemote(r, key) || DropPending(r, key)
    ensures !DropPending(r, key) ==> (key in r.entries <==> LiveLocal(r, key) || LiveRemote(r, key))
  {
  }

  /** There is at most one live local registration and one live remote source for a key. */
  lemma OwnersAreUnique(r: Registry)
    requires OwnershipInv(r)
    ensures forall a, b :: a in r.locals && b in r.locals && r.locals[a] == r.locals[b] ==> a == b
    ensures forall a, b | a in r.sources && b in r.sources && 0 < r.sources[a].handles && 0 < r.sources[b].handles ::
              r.sources[a].key == r.sources[b].key ==> a == b
  {
  }

  /**
   * Ownership with delayed drop, at any point of any interleaving: live owners are registered, what is
   * registered has an owner or a drop to come, and with no drop to come the two are the same.
   */
  lemma RunOwnership(states: seq<Registry>, actions: seq<Action>, i: nat, key: Key)
    requires IsRun(states, actions) && i < |states|
    ensures LiveLocal(states[i], key) || LiveRemote(states[i], key) ==> key in states[i].entries
    ensures key in states[i].entries ==>
        LiveLocal(states[i], key) || LiveRemote(states[i], key) || DropPending(states[i], key)
    ensures !DropPending(states[i], key) ==>
        (key in states[i].entries <==> LiveLocal(states[i], key) || LiveRemote(states[i], key))
    ensures key in Replay(states[i].log, {}) <==> key in states[i].entries
  {
    hide IsRun;
    RunKeepsRegistry(states, actions);
    OwnersAndEntries(states[i], key);
  }

  /** A late drop of a source never takes away a namespace someone else owns by then. */
  lemma StaleDropSparesNewOwner(r: Registry, source: SourceId)
    requires OwnershipInv(r) && source in r.sources && r.sources[source].handles == 0
    ensures var key, r' := r.sources[source].key, AfterFinishDrop(r, source);
            && (LiveLocal(r, key) || LiveRemote(r, key) ==>
                  && key in r'.entries && r'.log == r.log
                  && r'.entries[key].local == r.entries[key].local
                  && (LiveRemote(r, key) ==> r'.entries[key] == r.entries[key]))
            && (forall other :: other != key ==> (other in r'.entries <==> other in r.entries))
  {
  }
}
