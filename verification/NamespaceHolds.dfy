/** Who holds a namespace, counted from the calls alone: registrations handed out and given up over a run. */
module NamespaceHolds {
  import opened Options
  import opened NamespaceSpec
  import opened LocalRegistry

  // ---------------------------------------------------------------- remote registrations

  function KeyOf(action: Action): Key
    requires action.RegisterLocal? || action.RegisterRemote?
  {
    Key(ScopeKey(action.scope), action.namespace)
  }

  /** This step is a remote registration that was given a hold on `source`. */
  ghost predicate TakesHold(r': Registry, action: Action, source: SourceId) {
    action.RegisterRemote? && KeyOf(action) in r'.entries && r'.entries[KeyOf(action)].remote == Some(source)
  }

  /** Registrations given a hold on `source` in the first `i` steps, less the releases of it. */
  ghost function Held(states: seq<Registry>, actions: seq<Action>, source: SourceId, i: nat): int
    requires i <= |actions| < |states|
  {
    if i == 0 then 0
    else
      Held(states, actions, source, i - 1)
      + (if TakesHold(states[i], actions[i - 1], source) then 1 else 0)
      - (if actions[i - 1] == ReleaseRemote(source) then 1 else 0)
  }

  function HandlesOf(r: Registry, source: SourceId): nat {
    if source in r.sources then r.sources[source].handles else 0
  }

  lemma StepHolds(r: Registry, action: Action, source: SourceId)
    requires OwnershipInv(r) && Enabled(r, action)
    ensures HandlesOf(After(r, action), source) ==
            HandlesOf(r, source)
            + (if TakesHold(After(r, action), action, source) then 1 else 0)
            - (if action == ReleaseRemote(source) then 1 else 0)
  {
    if action.RegisterRemote? {
      assert r.nextId in r.sources ==> SourceOwns(r, r.nextId);
      if KeyOf(action) in r.entries {
        assert EntryOwned(r, KeyOf(action));
      }
    }
  }

  /** A source's handle count is the registrations that were given it and not yet released. */
  lemma {:induction false} HandlesAreHolds(states: seq<Registry>, actions: seq<Action>, source: SourceId, i: nat)
    requires IsRun(states, actions) && i <= |actions|
    ensures HandlesOf(states[i], source) == Held(states, actions, source, i)
  {
    hide OwnershipInv;
    hide After;
    hide TakesHold;
    if i > 0 {
      RunKeepsRegistry(states, actions);
      HandlesAreHolds(states, actions, source, i - 1);
      StepHolds(states[i - 1], actions[i - 1], source);
    }
  }

  /** A source keeps its key, and a new one gets an id not used before. */
  lemma StepKeepsSourceKeys(r: Registry, action: Action, source: SourceId)
    requires OwnershipInv(r) && Enabled(r, action)
    ensures var r' := After(r, action);
            && r.nextId <= r'.nextId
            && (source in r'.sources && source < r.nextId ==>
                source in r.sources && r'.sources[source].key == r.sources[source].key)
            && (source in r'.sources ==> source < r'.nextId)
  {
    assert source in r.sources ==> SourceOwns(r, source);
    if action.RegisterRemote? && KeyOf(action) in r.entries {
      assert EntryOwned(r, KeyOf(action));
    }
  }

  lemma {:induction false} SourceKeepsKey(states: seq<Registry>, actions: seq<Action>, source: SourceId, j: nat, i: nat)
    requires IsRun(states, actions) && j <= i <= |actions| && source < states[j].nextId
    ensures source < states[i].nextId
    ensures source in states[i].sources ==>
        source in states[j].sources && states[i].sources[source].key == states[j].sources[source].key
  {
    hide OwnershipInv;
    hide After;
    if j < i {
      RunKeepsRegistry(states, actions);
      SourceKeepsKey(states, actions, source, j, i - 1);
      StepKeepsSourceKeys(states[i - 1], actions[i - 1], source);
    }
  }

  /**
   * A namespace stays registered while some remote registration of it has not been released: counted
   * over the calls, a hold on the source that a registration of this key was given is still out.
   */
  lemma RegisteredWhileHeld(states: seq<Registry>, actions: seq<Action>, source: SourceId, j: nat, i: nat)
    requires IsRun(states, actions) && j < i <= |actions| && TakesHold(states[j + 1], actions[j], source)
    requires 0 < Held(states, actions, source, i)
    ensures KeyOf(actions[j]) in states[i].entries && states[i].entries[KeyOf(actions[j])].remote == Some(source)
  {
    hide After;
    hide Held;
    RunKeepsRegistry(states, actions);
    HandlesAreHolds(states, actions, source, i);
    assert EntryOwned(states[j + 1], KeyOf(actions[j])) && SourceOwns(states[j + 1], source);
    SourceKeepsKey(states, actions, source, j + 1, i);
    assert SourceOwns(states[i], source);
  }

  // ---------------------------------------------------------------- local registrations

  /** This step is a local registration that succeeded and was given `local`. */
  ghost predicate Registers(r: Registry, r': Registry, action: Action, local: LocalId) {
    && action.RegisterLocal? && KeyOf(action) in r'.entries && r'.entries[KeyOf(action)].local == Some(local)
    && (KeyOf(action) in r.entries ==> r.entries[KeyOf(action)].local.None?)
  }

  /** Registration `local` was handed out in step `j` and not dropped before step `i`. */
  ghost predicate StillHeld(states: seq<Registry>, actions: seq<Action>, local: LocalId, j: nat, i: nat)
    requires i <= |actions| < |states|
  {
    && j < i && actions[j].RegisterLocal? && Registers(states[j], states[j + 1], actions[j], local)
    && forall m :: j < m < i ==> actions[m] != DropLocal(local)
  }

  lemma StepHoldsLocal(r: Registry, action: Action, local: LocalId)
    requires OwnershipInv(r) && Enabled(r, action)
    ensures var r' := After(r, action);
            && (local in r'.locals <==>
                (local in r.locals && action != DropLocal(local)) || Registers(r, r', action, local))
            && (local in r.locals && local in r'.locals ==> r'.locals[local] == r.locals[local])
            && (Registers(r, r', action, local) ==> r'.locals[local] == KeyOf(action))
  {
    assert r.nextId in r.locals ==> LocalOwns(r, r.nextId);
    if action.RegisterLocal? && KeyOf(action) in r.entries {
      assert EntryOwned(r, KeyOf(action));
    }
  }

  /**
   * After `i` steps `local` is live exactly if it was handed out and not dropped, and its key is the
   * one registered.
   */
  ghost predicate LiveExactlyIfHeld(states: seq<Registry>, actions: seq<Action>, local: LocalId, i: nat)
    requires i <= |actions| < |states|
  {
    && (local in states[i].locals <==> exists j: nat :: StillHeld(states, actions, local, j, i))
    && forall j: nat :: StillHeld(states, actions, local, j, i) ==>
         actions[j].RegisterLocal? && local in states[i].locals && states[i].locals[local] == KeyOf(actions[j])
  }

  /** How the last step changes what is held. */
  lemma HeldStep(states: seq<Registry>, actions: seq<Action>, local: LocalId, j: nat, i: nat)
    requires 0 < i <= |actions| < |states|
    ensures StillHeld(states, actions, local, j, i) <==>
            || (StillHeld(states, actions, local, j, i - 1) && actions[i - 1] != DropLocal(local))
            || (j == i - 1 && actions[j].RegisterLocal? && Registers(states[j], states[i], actions[j], local))
  {
    hide Registers;
  }

  /** The live local registrations are those handed out and not dropped, each owning the entry of its key. */
  lemma {:induction false} LocalsAreHeld(states: seq<Registry>, actions: seq<Action>, local: LocalId, i: nat)
    requires IsRun(states, actions) && i <= |actions|
    ensures LiveExactlyIfHeld(states, actions, local, i)
  {
    hide OwnershipInv;
    hide LogInv;
    hide After;
    hide LiveExactlyIfHeld;
    if i == 0 {
      NoneHeldAtFirst(states, actions, local);
    } else {
      RunKeepsRegistry(states, actions);
      LocalsAreHeld(states, actions, local, i - 1);
      LocalsHeldStep(states, actions, local, i);
    }
  }

  lemma NoneHeldAtFirst(states: seq<Registry>, actions: seq<Action>, local: LocalId)
    requires |actions| < |states| && states[0] == EMPTY
    ensures LiveExactlyIfHeld(states, actions, local, 0)
  {
    hide Registers;
  }

  lemma LocalsHeldStep(states: seq<Registry>, actions: seq<Action>, local: LocalId, i: nat)
    requires 0 < i <= |actions| < |states| && OwnershipInv(states[i - 1])
    requires Enabled(states[i - 1], actions[i - 1]) && states[i] == After(states[i - 1], actions[i - 1])
    requires LiveExactlyIfHeld(states, actions, local, i - 1)
    ensures LiveExactlyIfHeld(states, actions, local, i)
  {
    hide OwnershipInv;
    hide After;
    hide Enabled;
    hide StillHeld;
    StepHoldsLocal(states[i - 1], actions[i - 1], local);
    forall j: nat
      ensures StillHeld(states, actions, local, j, i) <==>
              || (StillHeld(states, actions, local, j, i - 1) && actions[i - 1] != DropLocal(local))
              || (j == i - 1 && actions[j].RegisterLocal? && Registers(states[j], states[i], actions[j], local))
    {
      HeldStep(states, actions, local, j, i);
    }
    if local in states[i].locals {
      if Registers(states[i - 1], states[i], actions[i - 1], local) {
        assert StillHeld(states, actions, local, i - 1, i);
      } else {
        var j: nat :| StillHeld(states, actions, local, j, i - 1);
        assert StillHeld(states, actions, local, j, i);
      }
    }
  }

  // ---------------------------------------------------------------- what each call does, told by owners

  /**
   * Dropping a local registration leaves its namespace registered exactly if a remote source is held,
   * and is told exactly if not.
   */
  lemma DropLocalExactly(r: Registry, local: LocalId)
    requires OwnershipInv(r) && local in r.locals
    ensures var key, r' := r.locals[local], After(r, DropLocal(local));
            && (key in r'.entries <==> LiveRemote(r, key))
            && (key in r'.entries ==> r'.entries[key] == Entry(None, r.entries[key].remote))
            && r'.log == r.log + (if LiveRemote(r, key) then [] else [Notify(key, false)])
            && (forall other :: other != key ==>
                  (other in r'.entries <==> other in r.entries)
                      && (other in r.entries ==> r'.entries[other] == r.entries[other]))
  {
    var key := r.locals[local];
    assert LocalOwns(r, local) && EntryOwned(r, key);
    if LiveRemote(r, key) {
      var source :| source in r.sources && r.sources[source].key == key && 0 < r.sources[source].handles;
      assert SourceOwns(r, source);
    }
  }

  /** The late drop of a source leaves its namespace registered exactly if someone else still owns it. */
  lemma FinishDropExactly(r: Registry, source: SourceId)
    requires OwnershipInv(r) && source in r.sources && r.sources[source].handles == 0
    ensures var key, r' := r.sources[source].key, After(r, FinishDrop(source));
            && (key in r'.entries <==>
                key in r.entries && (r.entries[key].local.Some? || r.entries[key].remote != Some(source)))
            && (key in r'.entries && r.entries[key].remote == Some(source) ==>
                r'.entries[key] == Entry(r.entries[key].local, None))
            && r'.log == r.log + (if key in r.entries && key !in r'.entries then [Notify(key, false)] else [])
  {
  }

  /**
   * A registration is told exactly when the namespace was not registered; a second local one is refused
   * and changes nothing.
   */
  lemma RegisterExactly(r: Registry, action: Action)
    requires OwnershipInv(r) && (action.RegisterLocal? || action.RegisterRemote?)
    ensures var key, r' := KeyOf(action), After(r, action);
            && key in r'.entries
            && r'.log == r.log + (if key in r.entries then [] else [Notify(key, true)])
            && (action.RegisterLocal? && LiveLocal(r, key) ==> r' == r)
            && (action.RegisterRemote? && LiveRemote(r, key) ==> r'.entries == r.entries)
  {
    var key := KeyOf(action);
    if LiveLocal(r, key) {
      var local :| local in r.locals && r.locals[local] == key;
      assert LocalOwns(r, local);
    }
    if LiveRemote(r, key) {
      var source :| source in r.sources && r.sources[source].key == key && 0 < r.sources[source].handles;
      assert SourceOwns(r, source);
    }
  }

  /**
   * Routing told by owners: the route is a live local registration of this scope whose non-empty
   * namespace is a prefix of the one wanted, none is longer, and there is no route exactly if there is
   * no such registration.
   */
  lemma RouteIsLongestOwner(r: Registry, scope: Option<string>, namespace: Namespace, best: Option<LocalId>)
    requires OwnershipInv(r) && IsBestRoute(r.entries, scope, namespace, best)
    ensures best.Some? ==> best.value in r.locals && Serves(r.locals[best.value], scope, namespace)
    ensures forall local :: local in r.locals && Serves(r.locals[local], scope, namespace) ==>
              best.Some? && best.value in r.locals && |r.locals[local].namespace| <= |r.locals[best.value].namespace|
  {
    if best.Some? {
      var k :| Routes(r.entries, scope, namespace, k) && best == r.entries[k].local
               && forall other :: Routes(r.entries, scope, namespace, other) && other != k ==>
                    |other.namespace| < |k.namespace|;
      assert EntryOwned(r, k);
    }
    forall local | local in r.locals && Serves(r.locals[local], scope, namespace)
      ensures best.Some? && best.value in r.locals && |r.locals[local].namespace| <= |r.locals[best.value].namespace|
    {
      assert LocalOwns(r, local);
      assert Routes(r.entries, scope, namespace, r.locals[local]);
    }
  }

  /** Field by field, a registered key that can serve a namespace asked for in a scope. */
  predicate Serves(key: Key, scope: Option<string>, namespace: Namespace) {
    && (match scope case None => key.scope == "" case Some(name) => key.scope == name)
    && 0 < |key.namespace| <= |namespace|
    && forall i :: 0 <= i < |key.namespace| ==> key.namespace[i] == namespace[i]
  }
}
