/** What a SUBSCRIBE_NAMESPACE handler knows and has told its peer. */
module NamespaceSubscriber {
  import opened Options
  import opened NamespaceSpec
  import opened LocalRegistry

  datatype Message = Announce(namespace: Namespace) | Done(namespace: Namespace)

  /** What the peer makes of the messages it received. */
  function View(sent: seq<Message>): set<Namespace> {
    if sent == [] then {}
    else
      var before := View(sent[..|sent| - 1]);
      match sent[|sent| - 1]
      case Announce(namespace) => before + {namespace}
      case Done(namespace) => before - {namespace}
  }

  /** No message repeats what the peer already knows. */
  ghost predicate Clean(sent: seq<Message>) {
    forall i :: 0 <= i < |sent| ==> (sent[i].Announce? <==> sent[i].namespace !in View(sent[..i]))
  }

  lemma SendOne(sent: seq<Message>, message: Message)
    requires Clean(sent) && (message.Announce? <==> message.namespace !in View(sent))
    ensures Clean(sent + [message])
    ensures View(sent + [message]) ==
            if message.Announce? then View(sent) + {message.namespace} else View(sent) - {message.namespace}
  {
    var longer := sent + [message];
    assert longer[..|sent|] == sent;
    forall i | 0 <= i < |longer|
      ensures longer[i].Announce? <==> longer[i].namespace !in View(longer[..i])
    {
      assert i < |sent| ==> longer[..i] == sent[..i];
    }
  }

  /** A change concerns a subscriber of its own scope whose prefix selects the namespace. */
  predicate Concerns(scope: Option<string>, prefix: Namespace, change: Change) {
    change.scope == scope && prefix <= change.namespace
  }

  function ApplyKnown(scope: Option<string>, prefix: Namespace, known: set<Namespace>, change: Change): set<Namespace> {
    if !Concerns(scope, prefix, change) then known
    else if change.added then known + {change.namespace} else known - {change.namespace}
  }

  class Subscriber {
    const scope: Option<string>
    const prefix: Namespace
    var known: set<Namespace>
    var sent: seq<Message>

    ghost predicate Valid()
      reads this
    {
      Clean(sent) && View(sent) == known
    }

    constructor (scope: Option<string>, prefix: Namespace)
      ensures Valid() && this.scope == scope && this.prefix == prefix && known == {} && sent == []
    {
      this.scope, this.prefix := scope, prefix;
      known, sent := {}, [];
    }

    /** Announce every listed namespace not announced yet. */
    method SendSnapshot(current: set<Namespace>)
      requires Valid()
      modifies this
      ensures Valid() && known == old(known) + current && old(sent) <= sent
    {
      hide Clean;
      hide View;
      var rest := current;
      while rest != {}
        invariant Valid() && rest <= current && known == old(known) + (current - rest) && old(sent) <= sent
        decreases |rest|
      {
        var namespace :| namespace in rest;
        rest := rest - {namespace};
        if namespace !in known {
          SendOne(sent, Announce(namespace));
          known := known + {namespace};
          sent := sent + [Announce(namespace)];
        }
      }
    }

    method ApplyChange(change: Change)
      requires Valid()
      modifies this
      ensures Valid() && known == ApplyKnown(scope, prefix, old(known), change) && old(sent) <= sent
    {
      if change.scope != scope {
        return;
      }
      if !(prefix <= change.namespace) {
        return;
      }
      if change.added {
        if change.namespace !in known {
          SendOne(sent, Announce(change.namespace));
          known := known + {change.namespace};
          sent := sent + [Announce(change.namespace)];
        }
      } else if change.namespace in known {
        SendOne(sent, Done(change.namespace));
        known := known - {change.namespace};
        sent := sent + [Done(change.namespace)];
      }
    }

    /** Send one message kind for each of the given namespaces, in any order. */
    method TellAll(names: set<Namespace>, announce: bool)
      requires Clean(sent) && (if announce then names !! View(sent) else names <= View(sent))
      modifies this`sent
      ensures Clean(sent) && old(sent) <= sent
      ensures View(sent) == if announce then old(View(sent)) + names else old(View(sent)) - names
    {
      hide Clean;
      hide View;
      var rest := names;
      while rest != {}
        invariant Clean(sent) && old(sent) <= sent && rest <= names
        invariant View(sent) == if announce then old(View(sent)) + (names - rest) else old(View(sent)) - (names - rest)
        decreases |rest|
      {
        var namespace :| namespace in rest;
        rest := rest - {namespace};
        var message := if announce then Announce(namespace) else Done(namespace);
        SendOne(sent, message);
        sent := sent + [message];
      }
    }

    /** Tell the peer the differences from the current namespaces, and adopt those. */
    method Resync(current: set<Namespace>)
      requires Valid()
      modifies this
      ensures Valid() && known == current && old(sent) <= sent
    {
      hide Clean;
      hide View;
      TellAll(current - known, true);
      TellAll(known - current, false);
      known := current;
    }
  }
}

/**
 * A subscriber following the registry through a bounded broadcast channel. A registry change and the
 * sending of its notification are two steps: the lock is given up in between, so notifications may be
 * sent in another order than the changes were made. The whole channel is kept to say what was sent; a
 * receiver that falls more than the capacity behind loses the oldest entries.
 */
module NamespaceReplica {
  import opened Options
  import opened NamespaceSpec
  import opened LocalRegistry
  import opened NamespaceSubscriber

  const CAPACITY: nat := 1024

  datatype Phase = Absent | Subscribed | Ready | Lagged

  /** `listed` is where the receiver stood in the channel when it last listed the registry. */
  datatype Replica = Replica(
    scope: Option<string>, prefix: Namespace, phase: Phase, cursor: nat, listed: nat,
    known: set<Namespace>, sent: seq<Message>)

  /** `unsent` holds the notifications of changes made and not yet sent, oldest change first. */
  datatype System = System(registry: Registry, channel: seq<Change>, unsent: seq<Change>, replica: Replica)

  datatype Event = Act(action: Action) | Send(i: nat) | Subscribe | Snapshot | Receive | FallBehind | Resync

  ghost function Current(s: System): set<Namespace> {
    Matching(s.registry.entries.Keys, s.replica.scope, s.replica.prefix)
  }

  /** The peer has been told exactly what makes its view `known`. */
  ghost predicate Tells(sent: seq<Message>, sent': seq<Message>, known: set<Namespace>) {
    sent <= sent' && Clean(sent') && View(sent') == known
  }

  predicate LagPending(s: System) {
    s.replica.cursor + CAPACITY < |s.channel|
  }

  /** What an action appends to the list of its registry's changes. */
  ghost function Due(registry: Registry, registry': Registry): seq<Change> {
    if |registry.log| < |registry'.log| then registry'.log[|registry.log|..] else []
  }

  ghost predicate Next(s: System, s': System, event: Event) {
    var r, r' := s.replica, s'.replica;
    match event
    case Act(action) =>
      && Enabled(s.registry, action)
      && var registry' := After(s.registry, action);
         s' == s.(registry := registry', unsent := s.unsent + Due(s.registry, registry'))
    case Send(i) =>
      i < |s.unsent| && s' == s.(channel := s.channel + [s.unsent[i]], unsent := s.unsent[..i] + s.unsent[i + 1..])
    case Subscribe =>
      r.phase.Absent? && s' == s.(replica := r.(phase := Subscribed, cursor := |s.channel|, listed := |s.channel|))
    case Snapshot =>
      && r.phase.Subscribed? && s' == s.(replica := r')
      && r' == r.(phase := Ready, listed := r.cursor, known := r.known + Current(s), sent := r'.sent)
      && Tells(r.sent, r'.sent, r'.known)
    case Receive =>
      && r.phase.Ready? && r.cursor < |s.channel| && !LagPending(s) && s' == s.(replica := r')
      && Tells(r.sent, r'.sent, r'.known)
      && var known' := ApplyKnown(r.scope, r.prefix, r.known, s.channel[r.cursor]);
         r' == r.(cursor := r.cursor + 1, known := known', sent := r'.sent)
    case FallBehind =>
      r.phase.Ready? && LagPending(s) && s' == s.(replica := r.(phase := Lagged, cursor := |s.channel| - CAPACITY))
    case Resync =>
      && r.phase.Lagged? && s' == s.(replica := r')
      && r' == r.(phase := Ready, listed := r.cursor, known := Current(s), sent := r'.sent)
      && Tells(r.sent, r'.sent, r'.known)
  }

  ghost function Beginning(scope: Option<string>, prefix: Namespace): System {
    System(EMPTY, [], [], Replica(scope, prefix, Absent, 0, 0, {}, []))
  }

  ghost predicate IsRun(scope: Option<string>, prefix: Namespace, states: seq<System>, events: seq<Event>) {
    && |states| == |events| + 1
    && states[0] == Beginning(scope, prefix)
    && forall i :: 0 <= i < |events| ==> Next(states[i], states[i + 1], events[i])
  }

  function KeyOf(change: Change): Key {
    Key(ScopeKey(change.scope), change.namespace)
  }

  /** No notification overtakes an older one about the same namespace. */
  ghost predicate InOrder(s: System, event: Event) {
    event.Send? && event.i < |s.unsent| ==> forall j :: 0 <= j < event.i ==>
        KeyOf(s.unsent[j]) != KeyOf(s.unsent[event.i])
  }

  ghost predicate IsOrderedRun(scope: Option<string>, prefix: Namespace, states: seq<System>, events: seq<Event>) {
    && IsRun(scope, prefix, states, events)
    && forall i :: 0 <= i < |events| ==> InOrder(states[i], events[i])
  }

  // ---------------------------------------------------------------- the newest notification of a key

  /** What the newest notification about a key says, if there is one. */
  ghost function Newest(changes: seq<Change>, key: Key): Option<bool> {
    if changes == [] then None
    else
      var last := changes[|changes| - 1];
      if KeyOf(last) == key then Some(last.added) else Newest(changes[..|changes| - 1], key)
  }

  lemma {:induction false} NewestConcat(a: seq<Change>, b: seq<Change>, key: Key)
    ensures Newest(a + b, key) == if Newest(b, key).Some? then Newest(b, key) else Newest(a, key)
  {
    if b == [] {
      assert a + b == a;
    } else {
      var n := |b| - 1;
      NewestConcat(a, b[..n], key);
      assert (a + b)[..|a| + n] == a + b[..n];
    }
  }

  lemma {:induction false} NewestNone(changes: seq<Change>, key: Key)
    ensures Newest(changes, key).None? <==> forall i :: 0 <= i < |changes| ==> KeyOf(changes[i]) != key
  {
    if changes != [] {
      NewestNone(changes[..|changes| - 1], key);
    }
  }

  lemma {:induction false} ReplayIsNewest(changes: seq<Change>, keys: set<Key>, key: Key)
    ensures key in Replay(changes, keys) <==>
        if Newest(changes, key).Some? then Newest(changes, key).value else key in keys
  {
    if changes != [] {
      ReplayIsNewest(changes[..|changes| - 1], keys, key);
    }
  }

  /** The list without its element `i`. */
  ghost function Removed(changes: seq<Change>, i: nat): seq<Change>
    requires i < |changes|
  {
    changes[..i] + changes[i + 1..]
  }

  /** Moving a notification ahead of others, none of them about its key, changes no key's newest. */
  lemma OvertakingOthers(before: seq<Change>, changes: seq<Change>, i: nat, key: Key)
    requires i < |changes| && forall j :: 0 <= j < i ==> KeyOf(changes[j]) != KeyOf(changes[i])
    ensures Newest(before + [changes[i]] + Removed(changes, i), key) == Newest(before + changes, key)
  {
    var head, one, rest := changes[..i], [changes[i]], changes[i + 1..];
    assert changes == head + one + rest;
    NewestConcat(before + one, head + rest, key);
    NewestConcat(before, one, key);
    NewestConcat(head, rest, key);
    NewestConcat(before, changes, key);
    NewestConcat(head + one, rest, key);
    NewestConcat(head, one, key);
    NewestNone(head, key);
    assert one[..0] == [];
  }

  // ---------------------------------------------------------------- replaying notifications

  function ReplayKnown(
    scope: Option<string>, prefix: Namespace, changes: seq<Change>, known: set<Namespace>): set<Namespace>
  {
    if changes == [] then known
    else ApplyKnown(scope, prefix, ReplayKnown(scope, prefix, changes[..|changes| - 1], known), changes[|changes| - 1])
  }

  lemma {:induction false} ReplayFirst(
      scope: Option<string>, prefix: Namespace, changes: seq<Change>, known: set<Namespace>)
    requires changes != []
    ensures ReplayKnown(scope, prefix, changes, known)
         == ReplayKnown(scope, prefix, changes[1..], ApplyKnown(scope, prefix, known, changes[0]))
  {
    var n := |changes| - 1;
    if n > 0 {
      ReplayFirst(scope, prefix, changes[..n], known);
      assert changes[..n][1..] == changes[1..][..n - 1];
    }
  }

  /** For a proper scope, what a replay makes of a namespace is what the newest notification about it says. */
  lemma {:induction false} ReplayKnownIsNewest(
    scope: Option<string>, prefix: Namespace, changes: seq<Change>, known: set<Namespace>, namespace: Namespace)
    requires scope != Some(UNSCOPED) && Normalized(changes)
    ensures var newest := Newest(changes, Key(ScopeKey(scope), namespace));
            namespace in ReplayKnown(scope, prefix, changes, known) <==>
            if prefix <= namespace && newest.Some? then newest.value else namespace in known
  {
    if changes != [] {
      var n := |changes| - 1;
      ReplayKnownIsNewest(scope, prefix, changes[..n], known, namespace);
      assert changes[n].scope == scope <==> ScopeKey(changes[n].scope) == ScopeKey(scope);
    }
  }

  /** Replays that end on the same notification for every key come to the same. */
  lemma SameNewestSameReplay(
    scope: Option<string>, prefix: Namespace, a: seq<Change>, b: seq<Change>, known: set<Namespace>)
    requires scope != Some(UNSCOPED) && Normalized(a) && Normalized(b)
    requires forall key :: Newest(a, key) == Newest(b, key)
    ensures ReplayKnown(scope, prefix, a, known) == ReplayKnown(scope, prefix, b, known)
  {
    forall namespace
      ensures namespace in ReplayKnown(scope, prefix, a, known) <==> namespace in ReplayKnown(scope, prefix, b, known)
    {
      ReplayKnownIsNewest(scope, prefix, a, known, namespace);
      ReplayKnownIsNewest(scope, prefix, b, known, namespace);
    }
  }

  /** One notification does to the known namespaces what it does to the registered keys. */
  lemma ApplyFollowsKeys(scope: Option<string>, prefix: Namespace, keys: set<Key>, change: Change)
    requires scope != Some(UNSCOPED) && change.scope != Some(UNSCOPED)
    ensures ApplyKnown(scope, prefix, Matching(keys, scope, prefix), change)
        == Matching(Applied(keys, change), scope, prefix)
  {
    var key := KeyOf(change);
    assert change.scope == scope <==> key.scope == ScopeKey(scope);
    var after := Applied(keys, change);
    forall namespace
      ensures namespace in ApplyKnown(scope, prefix, Matching(keys, scope, prefix), change)
         <==> namespace in Matching(after, scope, prefix)
    {
      MatchingHas(keys, scope, prefix, namespace);
      MatchingHas(after, scope, prefix, namespace);
    }
  }

  lemma MatchingHas(keys: set<Key>, scope: Option<string>, prefix: Namespace, namespace: Namespace)
    ensures namespace in Matching(keys, scope, prefix) <==>
        Key(ScopeKey(scope), namespace) in keys && prefix <= namespace
  {
  }

  /** Replaying any tail of the log on the set the log leads to changes nothing. */
  lemma SuffixReplayIsIdle(log: seq<Change>, cursor: nat)
    requires cursor <= |log|
    ensures Replay(log[cursor..], Replay(log, {})) == Replay(log, {})
  {
    var keys := Replay(log, {});
    assert log == log[..cursor] + log[cursor..];
    forall key
      ensures key in Replay(log[cursor..], keys) <==> key in keys
    {
      NewestConcat(log[..cursor], log[cursor..], key);
      ReplayIsNewest(log[cursor..], keys, key);
      ReplayIsNewest(log, {}, key);
    }
  }

  // ---------------------------------------------------------------- sends in order

  /** What the receiver has still to see: the rest of the channel, then what is not sent yet. */
  ghost function Outstanding(s: System): seq<Change>
    requires s.replica.cursor <= |s.channel|
  {
    s.channel[s.replica.cursor..] + s.unsent
  }

  /** Once the registry is listed and no resync is due, what is outstanding leads to the registry's namespaces. */
  ghost predicate Following(s: System)
    requires s.replica.cursor <= |s.channel|
  {
    s.replica.phase.Ready? ==>
      ReplayKnown(s.replica.scope, s.replica.prefix, Outstanding(s), s.replica.known) == Current(s)
  }

  /** Sent or not, the notifications lead to the registered keys. */
  ghost predicate ChannelInv(s: System) {
    Normalized(s.channel) && Normalized(s.unsent) && Replay(s.channel + s.unsent, {}) == s.registry.entries.Keys
  }

  ghost predicate PeerInv(s: System) {
    && s.replica.listed <= s.replica.cursor <= |s.channel|
    && Clean(s.replica.sent) && View(s.replica.sent) == s.replica.known
    && (s.replica.phase.Absent? || s.replica.phase.Subscribed? ==> s.replica.known == {})
  }

  ghost predicate Inv(s: System) {
    ChannelInv(s) && PeerInv(s) && Following(s)
  }

  /** A listing taken at any time is in step with whatever is outstanding. */
  lemma SnapshotFollows(s: System)
    requires s.replica.scope != Some(UNSCOPED) && ChannelInv(s) && s.replica.cursor <= |s.channel|
    ensures ReplayKnown(s.replica.scope, s.replica.prefix, Outstanding(s), Current(s)) == Current(s)
  {
    hide Matching;
    var all, cursor := s.channel + s.unsent, s.replica.cursor;
    assert all[cursor..] == Outstanding(s);
    SuffixReplayIsIdle(all, cursor);
    forall namespace
      ensures namespace in ReplayKnown(s.replica.scope, s.replica.prefix, Outstanding(s), Current(s)) <==>
          namespace in Current(s)
    {
      var key := Key(ScopeKey(s.replica.scope), namespace);
      ReplayKnownIsNewest(s.replica.scope, s.replica.prefix, Outstanding(s), Current(s), namespace);
      ReplayIsNewest(Outstanding(s), Replay(all, {}), key);
      MatchingHas(s.registry.entries.Keys, s.replica.scope, s.replica.prefix, namespace);
    }
  }

  lemma ActKeeps(s: System, s': System, action: Action)
    requires Inv(s) && s.replica.scope != Some(UNSCOPED) && Next(s, s', Act(action))
    ensures Inv(s')
  {
    hide After;
    hide Matching;
    hide Clean;
    hide View;
    hide Replay;
    ActionIsItsNotification(s.registry, action);
    var registry', r := s'.registry, s.replica;
    if registry'.log == s.registry.log {
      assert s.unsent + [] == s.unsent;
    } else {
      var change :| registry'.log == s.registry.log + [change]
                    && registry'.entries.Keys == Applied(s.registry.entries.Keys, change)
                    && change.scope != Some(UNSCOPED);
      assert Due(s.registry, registry') == [change];
      assert s'.channel + s'.unsent == (s.channel + s.unsent) + [change];
      ReplaySnoc(s.channel + s.unsent, change, {});
      ApplyFollowsKeys(r.scope, r.prefix, s.registry.entries.Keys, change);
      assert Outstanding(s') == Outstanding(s) + [change];
      assert (Outstanding(s) + [change])[..|Outstanding(s)|] == Outstanding(s);
    }
  }

  lemma SendKeeps(s: System, s': System, i: nat)
    requires Inv(s) && s.replica.scope != Some(UNSCOPED) && Next(s, s', Send(i)) && InOrder(s, Send(i))
    ensures Inv(s')
  {
    hide Matching;
    hide Clean;
    hide View;
    hide Replay;
    hide Newest;
    hide ReplayKnown;
    var r := s.replica;
    assert s'.channel + s'.unsent == s.channel + [s.unsent[i]] + Removed(s.unsent, i);
    forall key
      ensures Newest(s'.channel + s'.unsent, key) == Newest(s.channel + s.unsent, key)
      ensures Newest(Outstanding(s'), key) == Newest(Outstanding(s), key)
    {
      OvertakingOthers(s.channel, s.unsent, i, key);
      OvertakingOthers(s.channel[r.cursor..], s.unsent, i, key);
      assert Outstanding(s') == s.channel[r.cursor..] + [s.unsent[i]] + Removed(s.unsent, i);
    }
    forall key
      ensures key in Replay(s'.channel + s'.unsent, {}) <==> key in Replay(s.channel + s.unsent, {})
    {
      ReplayIsNewest(s'.channel + s'.unsent, {}, key);
      ReplayIsNewest(s.channel + s.unsent, {}, key);
    }
    SameNewestSameReplay(r.scope, r.prefix, Outstanding(s), Outstanding(s'), r.known);
  }

  lemma ReceiveKeeps(s: System, s': System)
    requires Inv(s) && Next(s, s', Receive)
    ensures Inv(s')
  {
    hide Matching;
    hide Clean;
    hide View;
    hide Replay;
    ReplayFirst(s.replica.scope, s.replica.prefix, Outstanding(s), s.replica.known);
    assert Outstanding(s)[1..] == Outstanding(s');
  }

  lemma NextKeeps(s: System, s': System, event: Event)
    requires Inv(s) && s.replica.scope != Some(UNSCOPED) && Next(s, s', event) && InOrder(s, event)
    ensures Inv(s') && s'.replica.scope == s.replica.scope && s'.replica.prefix == s.replica.prefix
  {
    hide Matching;
    hide Clean;
    hide View;
    hide Replay;
    hide After;
    hide ReplayKnown;
    match event {
      case Act(action) => ActKeeps(s, s', action);
      case Send(i) => SendKeeps(s, s', i);
      case Subscribe =>
      case Snapshot =>
        SnapshotFollows(s);
        assert s'.replica.known == Current(s);
      case Receive => ReceiveKeeps(s, s');
      case FallBehind =>
      case Resync => SnapshotFollows(s);
    }
  }

  lemma BeginningInv(scope: Option<string>, prefix: Namespace)
    ensures Inv(Beginning(scope, prefix))
  {
  }

  /**
   * Over every run that sends each namespace's notifications in the order of its changes, through any
   * losses and resyncs, the replica follows and the peer's view is what it knows.
   */
  lemma {:induction false} RunFollows(scope: Option<string>, prefix: Namespace, states: seq<System>, events: seq<Event>)
    requires scope != Some(UNSCOPED) && IsOrderedRun(scope, prefix, states, events)
    ensures forall i :: 0 <= i < |states| ==> Inv(states[i]) && states[i].replica.scope == scope
  {
    hide Next;
    hide InOrder;
    hide Inv;
    if events == [] {
      BeginningInv(scope, prefix);
    } else {
      var n := |events| - 1;
      assert IsOrderedRun(scope, prefix, states[..n + 1], events[..n]);
      RunFollows(scope, prefix, states[..n + 1], events[..n]);
      assert states[..n + 1][n] == states[n];
      NextKeeps(states[n], states[n + 1], events[n]);
      assert forall i :: 0 <= i <= n ==> states[..n + 1][i] == states[i];
    }
  }

  /** The notifications the channel still holds for the receiver. */
  ghost function Queued(s: System): seq<Change>
    requires s.replica.cursor <= |s.channel|
  {
    s.channel[if LagPending(s) then |s.channel| - CAPACITY else s.replica.cursor..]
  }

  /** Unless a lag is pending, what is queued and then what is unsent leads to exactly the registry's namespaces. */
  lemma QueueLeadsToRegistry(scope: Option<string>, prefix: Namespace, states: seq<System>, events: seq<Event>, i: nat)
    requires scope != Some(UNSCOPED) && IsOrderedRun(scope, prefix, states, events) && i < |states|
    requires states[i].replica.phase.Ready? && !LagPending(states[i])
    ensures states[i].replica.cursor <= |states[i].channel|
    ensures ReplayKnown(scope, states[i].replica.prefix, Queued(states[i]) + states[i].unsent, states[i].replica.known)
         == Current(states[i])
    ensures View(states[i].replica.sent) == states[i].replica.known
  {
    hide IsOrderedRun;
    RunFollows(scope, prefix, states, events);
  }

  /** The sender keeps the lock: a change is followed at once by its notification. */
  ghost predicate SendsAtOnce(states: seq<System>, events: seq<Event>) {
    |events| < |states| && forall i :: 0 <= i < |events| && states[i].unsent != [] ==> events[i] == Send(0)
  }

  /** Sent under the lock, the queue alone leads to the registry whenever the lock is free. */
  lemma SendUnderLockFollows(scope: Option<string>, prefix: Namespace, states: seq<System>, events: seq<Event>, i: nat)
    requires scope != Some(UNSCOPED) && IsRun(scope, prefix, states, events) && SendsAtOnce(states, events)
        && i < |states|
    requires states[i].replica.phase.Ready? && !LagPending(states[i]) && states[i].unsent == []
    ensures states[i].replica.cursor <= |states[i].channel|
    ensures ReplayKnown(scope, states[i].replica.prefix, Queued(states[i]), states[i].replica.known)
        == Current(states[i])
  {
    hide Next;
    forall j | 0 <= j < |events|
      ensures InOrder(states[j], events[j])
    {
      assert events[j].Send? && states[j].unsent != [] ==> events[j] == Send(0);
    }
    QueueLeadsToRegistry(scope, prefix, states, events, i);
    assert Queued(states[i]) + [] == Queued(states[i]);
  }

  // ---------------------------------------------------------------- sends in any order

  /** The key of a namespace for this subscriber. */
  ghost function Selected(s: System, namespace: Namespace): Key {
    Key(ScopeKey(s.replica.scope), namespace)
  }

  /**
   * What is known of a namespace comes from its newest notification received since the last listing, or
   * from that listing.
   */
  ghost predicate Remembers(s: System, namespace: Namespace)
    requires s.replica.listed <= s.replica.cursor <= |s.channel|
  {
    var key := Selected(s, namespace);
    var newest := Newest(s.channel[s.replica.listed..s.replica.cursor], key);
    && (namespace in s.replica.known ==> s.replica.prefix <= namespace)
    && (s.replica.prefix <= namespace && newest.Some? ==> (namespace in s.replica.known <==> newest.value))
    && (s.replica.prefix <= namespace && Newest(s.channel[s.replica.listed..] + s.unsent, key).None? ==>
          (namespace in s.replica.known <==> key in s.registry.entries))
  }

  /** A namespace was changed if anything was ever to be sent about it. */
  ghost predicate Caused(s: System, key: Key) {
    Newest(s.channel + s.unsent, key).Some? ==> Newest(s.registry.log, key).Some?
  }

  ghost predicate AnyInv(s: System) {
    && LogInv(s.registry) && Normalized(s.registry.log) && Normalized(s.channel) && Normalized(s.unsent)
    && PeerInv(s)
    && (forall key :: Caused(s, key))
    && (s.replica.phase.Ready? ==> forall namespace :: Remembers(s, namespace))
  }

  lemma ActKeepsAny(s: System, s': System, action: Action)
    requires AnyInv(s) && Next(s, s', Act(action))
    ensures AnyInv(s')
  {
    hide After;
    hide Clean;
    hide View;
    hide LogInv;
    ActionKeepsLog(s.registry, action);
    ActionIsItsNotification(s.registry, action);
    var registry' := s'.registry;
    if registry'.log == s.registry.log {
      assert s.unsent + [] == s.unsent;
      forall namespace | s'.replica.phase.Ready?
        ensures Remembers(s', namespace)
      {
        assert Remembers(s, namespace);
      }
      forall key
        ensures Caused(s', key)
      {
        assert Caused(s, key);
      }
    } else {
      var change :| registry'.log == s.registry.log + [change]
                    && registry'.entries.Keys == Applied(s.registry.entries.Keys, change)
                    && change.scope != Some(UNSCOPED);
      assert Due(s.registry, registry') == [change];
      OneMoreKeepsAny(s, s', change);
    }
  }

  lemma OneMoreKeepsAny(s: System, s': System, change: Change)
    requires AnyInv(s) && s' == s.(registry := s'.registry, unsent := s.unsent + [change])
    requires s'.registry.log == s.registry.log + [change] && change.scope != Some(UNSCOPED)
    requires s'.registry.entries.Keys == Applied(s.registry.entries.Keys, change)
    requires LogInv(s'.registry) && Normalized(s'.registry.log)
    ensures AnyInv(s')
  {
    hide Clean;
    hide View;
    hide LogInv;
    hide Newest;
    var listed := s.replica.listed;
    forall key
      ensures Caused(s', key)
      ensures Newest(s'.channel[listed..] + s'.unsent, key).None? ==>
                KeyOf(change) != key && Newest(s.channel[listed..] + s.unsent, key).None?
    {
      assert Caused(s, key);
      assert s'.channel + s'.unsent == (s.channel + s.unsent) + [change];
      assert s'.channel[listed..] + s'.unsent == (s.channel[listed..] + s.unsent) + [change];
      NewestConcat(s.channel + s.unsent, [change], key);
      NewestConcat(s.channel[listed..] + s.unsent, [change], key);
      NewestConcat(s.registry.log, [change], key);
      NewestOne(change, key);
    }
    forall namespace | s'.replica.phase.Ready?
      ensures Remembers(s', namespace)
    {
      assert Remembers(s, namespace);
    }
  }

  lemma SendKeepsAny(s: System, s': System, i: nat)
    requires AnyInv(s) && Next(s, s', Send(i))
    ensures AnyInv(s')
  {
    hide Clean;
    hide View;
    hide LogInv;
    hide Newest;
    var listed, cursor := s.replica.listed, s.replica.cursor;
    forall key
      ensures Caused(s', key)
      ensures Newest(s'.channel[listed..] + s'.unsent, key).None? <==> Newest(s.channel[listed..] + s.unsent, key).None?
    {
      assert Caused(s, key);
      SendMovesOne(s.channel, s.unsent, i, key);
      SendMovesOne(s.channel[listed..], s.unsent, i, key);
      assert s'.channel[listed..] == s.channel[listed..] + [s.unsent[i]];
    }
    assert s'.channel[listed..cursor] == s.channel[listed..cursor];
    forall namespace | s'.replica.phase.Ready?
      ensures Remembers(s', namespace)
    {
      assert Remembers(s, namespace);
    }
  }

  lemma SendMovesOne(channel: seq<Change>, unsent: seq<Change>, i: nat, key: Key)
    requires i < |unsent|
    ensures Newest((channel + [unsent[i]]) + Removed(unsent, i), key).None? <==> Newest(channel + unsent, key).None?
  {
    var a, b := (channel + [unsent[i]]) + Removed(unsent, i), channel + unsent;
    NewestNone(a, key);
    NewestNone(b, key);
    assert forall change :: change in a <==> change in b;
    assert forall k :: 0 <= k < |a| ==> a[k] in b;
    assert forall k :: 0 <= k < |b| ==> b[k] in a;
  }

  lemma ReceiveKeepsAny(s: System, s': System)
    requires AnyInv(s) && s.replica.scope != Some(UNSCOPED) && Next(s, s', Receive)
    ensures AnyInv(s')
  {
    hide Clean;
    hide View;
    hide LogInv;
    hide Newest;
    var listed, cursor := s.replica.listed, s.replica.cursor;
    var change := s.channel[cursor];
    assert s.channel[listed..cursor + 1] == s.channel[listed..cursor] + [change];
    assert s.channel[listed..] == s.channel[listed..cursor] + [change] + s.channel[cursor + 1..];
    forall key
      ensures Caused(s', key)
    {
      assert Caused(s, key);
    }
    forall namespace
      ensures Remembers(s', namespace)
    {
      assert Remembers(s, namespace);
      var key := Selected(s, namespace);
      NewestConcat(s.channel[listed..cursor], [change], key);
      NewestOne(change, key);
      NewestNone(s.channel[listed..] + s.unsent, key);
      assert (s.channel[listed..] + s.unsent)[cursor - listed] == change;
      assert change.scope == s.replica.scope <==> ScopeKey(change.scope) == ScopeKey(s.replica.scope);
    }
  }

  lemma NewestOne(change: Change, key: Key)
    ensures Newest([change], key) == if KeyOf(change) == key then Some(change.added) else None
  {
  }

  /** Listing the registry starts the memory over. */
  lemma ListingKeepsAny(s: System, s': System)
    requires AnyInv(s) && s' == s.(replica := s'.replica)
    requires var r, r' := s.replica, s'.replica;
             r' == r.(phase := Ready, listed := r.cursor, known := Current(s), sent := r'.sent)
                 && Tells(r.sent, r'.sent, r'.known)
    ensures AnyInv(s')
  {
    hide Matching;
    hide Clean;
    hide View;
    hide LogInv;
    assert s.channel[s.replica.cursor..s.replica.cursor] == [];
    forall key
      ensures Caused(s', key)
    {
      assert Caused(s, key);
    }
    forall namespace
      ensures Remembers(s', namespace)
    {
      MatchingHas(s.registry.entries.Keys, s.replica.scope, s.replica.prefix, namespace);
    }
  }

  lemma NextKeepsAny(s: System, s': System, event: Event)
    requires AnyInv(s) && s.replica.scope != Some(UNSCOPED) && Next(s, s', event)
    ensures AnyInv(s') && s'.replica.scope == s.replica.scope && s'.replica.prefix == s.replica.prefix
  {
    hide Matching;
    hide Clean;
    hide View;
    hide LogInv;
    hide After;
    hide Newest;
    hide Remembers;
    match event {
      case Act(action) => ActKeepsAny(s, s', action);
      case Send(i) => SendKeepsAny(s, s', i);
      case Subscribe => CausedStays(s, s');
      case Snapshot =>
        assert s'.replica.known == Current(s);
        ListingKeepsAny(s, s');
      case Receive => ReceiveKeepsAny(s, s');
      case FallBehind => CausedStays(s, s');
      case Resync => ListingKeepsAny(s, s');
    }
  }

  lemma CausedStays(s: System, s': System)
    requires s'.channel == s.channel && s'.unsent == s.unsent && s'.registry == s.registry && forall key ::
        Caused(s, key)
    ensures forall key :: Caused(s', key)
  {
    forall key
      ensures Caused(s', key)
    {
      assert Caused(s, key);
    }
  }

  lemma BeginningAnyInv(scope: Option<string>, prefix: Namespace)
    ensures AnyInv(Beginning(scope, prefix))
  {
    EmptyKeepsRegistry();
  }

  lemma {:induction false} RunRemembers(
      scope: Option<string>, prefix: Namespace, states: seq<System>, events: seq<Event>)
    requires scope != Some(UNSCOPED) && IsRun(scope, prefix, states, events)
    ensures forall i :: 0 <= i < |states| ==> AnyInv(states[i]) && states[i].replica.scope == scope
  {
    hide Next;
    hide AnyInv;
    if events == [] {
      BeginningAnyInv(scope, prefix);
    } else {
      var n := |events| - 1;
      assert IsRun(scope, prefix, states[..n + 1], events[..n]);
      RunRemembers(scope, prefix, states[..n + 1], events[..n]);
      assert states[..n + 1][n] == states[n];
      NextKeepsAny(states[n], states[n + 1], events[n]);
      assert forall i :: 0 <= i <= n ==> states[..n + 1][i] == states[i];
    }
  }

  /** Nothing is left to send or to receive. */
  ghost predicate Quiescent(s: System) {
    s.replica.phase.Ready? && s.unsent == [] && s.replica.cursor == |s.channel|
  }

  /** The peer sees exactly the registered namespaces. */
  ghost predicate Agrees(s: System) {
    View(s.replica.sent) == Current(s)
  }

  /**
   * For every namespace of the subscription sent about since the last listing, the newest sent says
   * what its newest change was.
   */
  ghost predicate NewestSentIsNewestMade(s: System)
    requires s.replica.listed <= |s.channel|
  {
    forall namespace :: s.replica.prefix <= namespace ==>
      var sent := Newest(s.channel[s.replica.listed..], Selected(s, namespace));
      sent.Some? ==> sent == Newest(s.registry.log, Selected(s, namespace))
  }

  /**
   * Whatever the order of the sends: when nothing is left to send or receive, the peer sees exactly the
   * registered namespaces if and only if, for each of them sent about since the subscriber last listed
   * the registry, the notification sent last says what the last change was.
   */
  lemma QuiescentAgreesExactly(
      scope: Option<string>, prefix: Namespace, states: seq<System>, events: seq<Event>, i: nat)
    requires scope != Some(UNSCOPED) && IsRun(scope, prefix, states, events) && i < |states| && Quiescent(states[i])
    ensures states[i].replica.listed <= |states[i].channel|
    ensures Agrees(states[i]) <==> NewestSentIsNewestMade(states[i])
  {
    hide IsRun;
    RunRemembers(scope, prefix, states, events);
    AgreesExactly(states[i]);
  }

  lemma AgreesExactly(s: System)
    requires AnyInv(s) && Quiescent(s)
    ensures s.replica.listed <= |s.channel| && (Agrees(s) <==> NewestSentIsNewestMade(s))
  {
    hide Matching;
    hide Clean;
    hide View;
    hide Newest;
    forall namespace
      ensures s.replica.prefix <= namespace ==>
                var sent := Newest(s.channel[s.replica.listed..], Selected(s, namespace));
                ((namespace in s.replica.known <==> namespace in Current(s)) <==>
                 (sent.Some? ==> sent == Newest(s.registry.log, Selected(s, namespace))))
      ensures !(s.replica.prefix <= namespace) ==> namespace !in s.replica.known && namespace !in Current(s)
    {
      AgreesAt(s, namespace);
    }
  }

  lemma AgreesAt(s: System, namespace: Namespace)
    requires AnyInv(s) && Quiescent(s)
    ensures s.replica.prefix <= namespace ==>
              var sent := Newest(s.channel[s.replica.listed..], Selected(s, namespace));
              ((namespace in s.replica.known <==> namespace in Current(s)) <==>
               (sent.Some? ==> sent == Newest(s.registry.log, Selected(s, namespace))))
    ensures !(s.replica.prefix <= namespace) ==> namespace !in s.replica.known && namespace !in Current(s)
  {
    hide Matching;
    hide Clean;
    hide View;
    hide Newest;
    var key, listed := Selected(s, namespace), s.replica.listed;
    assert Remembers(s, namespace) && Caused(s, key);
    assert s.channel[listed..s.replica.cursor] == s.channel[listed..]
        && s.channel[listed..] + s.unsent == s.channel[listed..];
    MatchingHas(s.registry.entries.Keys, s.replica.scope, s.replica.prefix, namespace);
    ReplayIsNewest(s.registry.log, {}, key);
    assert s.channel + s.unsent == s.channel[..listed] + s.channel[listed..];
    NewestConcat(s.channel[..listed], s.channel[listed..], key);
  }

  // ---------------------------------------------------------------- when it converges

  /** A run in which the notification of a removal is sent after that of a later registration. */
  ghost function LateRun(scope: Option<string>): seq<System> {
    var name := ["a"];
    var start := Beginning(scope, []);
    var ready := start.replica.(phase := Ready);
    var once := After(EMPTY, RegisterLocal(scope, name));
    var gone := After(once, DropLocal(0));
    var twice := After(gone, RegisterLocal(scope, name));
    var add, remove := Notify(Key(ScopeKey(scope), name), true), Notify(Key(ScopeKey(scope), name), false);
    var told := [Announce(name)];
    [start,
     start.(replica := start.replica.(phase := Subscribed)),
     start.(replica := ready),
     System(once, [], [add], ready),
     System(once, [add], [], ready),
     System(gone, [add], [remove], ready),
     System(twice, [add], [remove, add], ready),
     System(twice, [add, add], [remove], ready),
     System(twice, [add, add, remove], [], ready),
     System(twice, [add, add, remove], [], ready.(cursor := 1, known := {name}, sent := told)),
     System(twice, [add, add, remove], [], ready.(cursor := 2, known := {name}, sent := told)),
     System(twice, [add, add, remove], [], ready.(cursor := 3, known := {}, sent := told + [Done(name)]))]
  }

  ghost function LateEvents(scope: Option<string>): seq<Event> {
    [Subscribe, Snapshot,
     Act(RegisterLocal(scope, ["a"])), Send(0), Act(DropLocal(0)), Act(RegisterLocal(scope, ["a"])), Send(1), Send(0),
     Receive, Receive, Receive]
  }

  /** The registry of that run, action by action. */
  lemma LateRegistry(scope: Option<string>)
    ensures var name := ["a"];
            var key := Key(ScopeKey(scope), name);
            var add, remove := Notify(key, true), Notify(key, false);
            var once := After(EMPTY, RegisterLocal(scope, name));
            && once.log == [add] && Enabled(once, DropLocal(0))
            && var gone := After(once, DropLocal(0));
            && gone.log == [add, remove] && gone.entries == map[]
            && var twice := After(gone, RegisterLocal(scope, name));
            && twice.log == [add, remove, add] && twice.entries.Keys == {key}
  {
    var once := After(EMPTY, RegisterLocal(scope, ["a"]));
    assert once.locals == map[0 := Key(ScopeKey(scope), ["a"])];
  }

  lemma ActAppends(s: System, action: Action, change: Change)
    requires Enabled(s.registry, action) && After(s.registry, action).log == s.registry.log + [change]
    ensures Next(s, s.(registry := After(s.registry, action), unsent := s.unsent + [change]), Act(action))
  {
    hide After;
    assert Due(s.registry, After(s.registry, action)) == [change];
  }

  lemma LateRunActs(scope: Option<string>)
    ensures var states, events := LateRun(scope), LateEvents(scope);
            && Next(states[2], states[3], events[2])
            && Next(states[4], states[5], events[4])
            && Next(states[5], states[6], events[5])
  {
    hide After;
    hide Next;
    var states, name := LateRun(scope), ["a"];
    var add, remove := Notify(Key(ScopeKey(scope), name), true), Notify(Key(ScopeKey(scope), name), false);
    LateRegistry(scope);
    ActAppends(states[2], RegisterLocal(scope, name), add);
    ActAppends(states[4], DropLocal(0), remove);
    ActAppends(states[5], RegisterLocal(scope, name), add);
    assert [] + [add] == [add] && [] + [remove] == [remove] && [remove] + [add] == [remove, add];
  }

  lemma LateRunSends(scope: Option<string>)
    ensures var states, events := LateRun(scope), LateEvents(scope);
            && Next(states[3], states[4], events[3])
            && Next(states[6], states[7], events[6])
            && Next(states[7], states[8], events[7])
  {
    hide After;
    var states, name := LateRun(scope), ["a"];
    var add, remove := Notify(Key(ScopeKey(scope), name), true), Notify(Key(ScopeKey(scope), name), false);
    assert [remove, add][..1] + [remove, add][2..] == [remove];
    assert [remove][..0] + [remove][1..] == [] && [add][..0] + [add][1..] == [];
    assert [add] + [add] == [add, add] && [add, add] + [remove] == [add, add, remove] && [] + [add] == [add];
  }

  lemma NothingSent()
    ensures Clean([]) && View([]) == {}
  {
  }

  lemma LateRunReceives(scope: Option<string>)
    requires scope != Some(UNSCOPED)
    ensures forall i :: 8 <= i < 11 ==> Next(LateRun(scope)[i], LateRun(scope)[i + 1], LateEvents(scope)[i])
  {
    hide After;
    hide Clean;
    hide View;
    var states, events := LateRun(scope), LateEvents(scope);
    var name := ["a"];
    NothingSent();
    SendOne([], Announce(name));
    assert [] + [Announce(name)] == [Announce(name)];
    SendOne([Announce(name)], Done(name));
    assert Next(states[8], states[9], events[8]);
    assert Next(states[9], states[10], events[9]);
    assert Next(states[10], states[11], events[10]);
  }

  /**
   * For every proper scope there is a run, with nothing left to send or receive at its end, in which the
   * peer misses a registered namespace: a removal was sent after a later registration.
   */
  lemma LateSendMisleads(scope: Option<string>)
    requires scope != Some(UNSCOPED)
    ensures IsRun(scope, [], LateRun(scope), LateEvents(scope))
    ensures Quiescent(LateRun(scope)[11]) && !Agrees(LateRun(scope)[11])
  {
    hide After;
    hide Next;
    var states, events := LateRun(scope), LateEvents(scope);
    LateRunStarts(scope);
    LateRunActs(scope);
    LateRunSends(scope);
    LateRunReceives(scope);
    LateRegistry(scope);
    MatchingHas(states[11].registry.entries.Keys, scope, [], ["a"]);
    SendOne([], Announce(["a"]));
    SendOne([Announce(["a"])], Done(["a"]));
    assert [] + [Announce(["a"])] == [Announce(["a"])];
    assert ["a"] in Current(states[11]);
  }

  lemma LateRunStarts(scope: Option<string>)
    ensures forall i :: 0 <= i < 2 ==> Next(LateRun(scope)[i], LateRun(scope)[i + 1], LateEvents(scope)[i])
  {
    hide After;
    var states, events := LateRun(scope), LateEvents(scope);
    assert Current(states[1]) == {};
    assert Next(states[0], states[1], events[0]);
    assert Next(states[1], states[2], events[1]);
  }

  ghost predicate AlwaysConverges(scope: Option<string>, prefix: Namespace) {
    forall states: seq<System>, events: seq<Event>, i: nat ::
      IsOrderedRun(scope, prefix, states, events) && i < |states| && Quiescent(states[i]) ==> Agrees(states[i])
  }

  /** A run that registers one namespace for a subscriber whose scope is the empty string. */
  ghost function DeafRun(prefix: Namespace): seq<System> {
    var start := Beginning(Some(UNSCOPED), prefix);
    var ready := start.replica.(phase := Ready);
    var once := After(EMPTY, RegisterLocal(Some(UNSCOPED), prefix));
    var add := Change(None, prefix, true);
    [start,
     start.(replica := start.replica.(phase := Subscribed)),
     start.(replica := ready),
     System(once, [], [add], ready),
     System(once, [add], [], ready),
     System(once, [add], [], ready.(cursor := 1))]
  }

  lemma DeafRunIsRun(prefix: Namespace)
    ensures IsOrderedRun(Some(UNSCOPED), prefix, DeafRun(prefix),
                         [Subscribe, Snapshot, Act(RegisterLocal(Some(UNSCOPED), prefix)), Send(0), Receive])
    ensures Quiescent(DeafRun(prefix)[5]) && !Agrees(DeafRun(prefix)[5])
  {
    hide After;
    hide Clean;
    hide View;
    var states, add := DeafRun(prefix), Change(None, prefix, true);
    NothingSent();
    DeafRegistry(prefix);
    assert Current(states[1]) == {};
    assert Next(states[0], states[1], Subscribe);
    assert Next(states[1], states[2], Snapshot);
    ActAppends(states[2], RegisterLocal(Some(UNSCOPED), prefix), add);
    assert [] + [add] == [add] && [add][..0] + [add][1..] == [];
    assert Next(states[3], states[4], Send(0));
    assert Next(states[4], states[5], Receive);
    MatchingHas(states[5].registry.entries.Keys, Some(UNSCOPED), prefix, prefix);
    assert prefix in Current(states[5]);
  }

  lemma DeafRegistry(prefix: Namespace)
    ensures var once := After(EMPTY, RegisterLocal(Some(UNSCOPED), prefix));
            once.log == [Change(None, prefix, true)] && once.entries.Keys == {Key(UNSCOPED, prefix)}
  {
  }

  /**
   * With sends in the order of the changes, every run converges if and only if the scope is not the
   * empty string. That scope shares the unscoped bucket, but its notifications are sent as unscoped
   * and ignored.
   */
  lemma ConvergesExactlyForProperScopes(scope: Option<string>, prefix: Namespace)
    ensures AlwaysConverges(scope, prefix) <==> scope != Some(UNSCOPED)
  {
    if scope == Some(UNSCOPED) {
      DeafRunIsRun(prefix);
      assert !Agrees(DeafRun(prefix)[5]) && 5 < |DeafRun(prefix)|;
    } else {
      forall states: seq<System>, events: seq<Event>, i: nat
        | IsOrderedRun(scope, prefix, states, events) && i < |states| && Quiescent(states[i])
        ensures Agrees(states[i])
      {
        RunFollows(scope, prefix, states, events);
        FollowingAgrees(states[i]);
      }
    }
  }

  lemma FollowingAgrees(s: System)
    requires Inv(s) && Quiescent(s)
    ensures Agrees(s)
  {
    assert Outstanding(s) == [];
  }
}
