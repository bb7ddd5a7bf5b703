/** The relay-local registry, changed in place, and the lookups made on it. */
module LocalRegistry {
  import opened Options
  import opened NamespaceSpec

  /** The registered namespaces of a scope that a prefix selects. */
  function Matching(keys: set<Key>, scope: Option<string>, prefix: Namespace): set<Namespace> {
    set k | k in keys && k.scope == ScopeKey(scope) && prefix <= k.namespace :: k.namespace
  }

  /** A registered non-empty prefix of the requested namespace that has a local route. */
  predicate Routes(entries: map<Key, Entry>, scope: Option<string>, namespace: Namespace, k: Key) {
    && k in entries && entries[k].local.Some?
    && k.scope == ScopeKey(scope) && k.namespace <= namespace && k.namespace != []
  }

  /** The local route of the one longest such prefix, and none exactly when there is no such prefix. */
  ghost predicate IsBestRoute(
      entries: map<Key, Entry>, scope: Option<string>, namespace: Namespace, best: Option<LocalId>) {
    if best.None? then forall k :: !Routes(entries, scope, namespace, k)
    else exists k ::
        && Routes(entries, scope, namespace, k) && best == entries[k].local
        && forall other :: Routes(entries, scope, namespace, other) && other != k ==> |other.namespace| < |k.namespace|
  }

  /** Whatever order the entries are visited in, the best route is the same. */
  lemma BestRouteIsUnique(
      entries: map<Key, Entry>, scope: Option<string>, namespace: Namespace, a: Option<LocalId>, b: Option<LocalId>)
    requires IsBestRoute(entries, scope, namespace, a) && IsBestRoute(entries, scope, namespace, b)
    ensures a == b
  {
    if a.Some? && b.Some? {
      var j :| Routes(entries, scope, namespace, j) && a == entries[j].local
               && forall other :: Routes(entries, scope, namespace, other) && other != j ==>
                   |other.namespace| < |j.namespace|;
      var k :| Routes(entries, scope, namespace, k) && b == entries[k].local
               && forall other :: Routes(entries, scope, namespace, other) && other != k ==>
                   |other.namespace| < |k.namespace|;
      assert j == k;
    }
  }

  /** An entry known only from remote relays never routes. */
  lemma RemoteOnlyNeverRoutes(
      entries: map<Key, Entry>, scope: Option<string>, namespace: Namespace, k: Key, best: Option<LocalId>)
    requires k in entries && entries[k].local.None?
    requires IsBestRoute(entries, scope, namespace, best)
    ensures IsBestRoute(entries - {k}, scope, namespace, best)
  {
    assert forall other :: Routes(entries - {k}, scope, namespace, other) <==> Routes(entries, scope, namespace, other);
    if best.Some? {
      var j :| Routes(entries, scope, namespace, j) && best == entries[j].local
               && forall other :: Routes(entries, scope, namespace, other) && other != j ==>
                   |other.namespace| < |j.namespace|;
      assert Routes(entries - {k}, scope, namespace, j) && best == (entries - {k})[j].local;
    }
  }

  class Locals {
    var entries: map<Key, Entry>
    var locals: map<LocalId, Key>
    var sources: map<SourceId, RemoteSource>
    var nextId: nat
    var log: seq<Change>

    constructor ()
      ensures State() == EMPTY
    {
      entries, locals, sources, nextId, log := map[], map[], map[], 0, [];
    }

    function State(): Registry
      reads this
    {
      Registry(entries, locals, sources, nextId, log)
    }

    /** Register a local route; refused when the namespace already has one. */
    method RegisterNamespace(scope: Option<string>, namespace: Namespace) returns (registration: Option<LocalId>)
      modifies this
      ensures State() == After(old(State()), RegisterLocal(scope, namespace))
      ensures var key := Key(ScopeKey(scope), namespace);
              && key in entries
              && (registration.None? <==> key in old(entries) && old(entries)[key].local.Some?)
              && (registration.Some? ==> entries[key].local == registration)
    {
      var key := Key(ScopeKey(scope), namespace);
      var added := false;
      if key !in entries {
        entries := entries[key := Entry(Some(nextId), None)];
        added := true;
      } else {
        if entries[key].local.Some? {
          return None;
        }
        entries := entries[key := entries[key].(local := Some(nextId))];
      }
      registration := Some(nextId);
      locals := locals[nextId := key];
      nextId := nextId + 1;
      if added {
        log := log + [Change(ScopeOption(key.scope), namespace, true)];
      }
    }

    /** Share the remote source of a namespace, or create one. */
    method RegisterRemoteNamespace(scope: Option<string>, namespace: Namespace) returns (source: SourceId)
      modifies this
      ensures State() == After(old(State()), RegisterRemote(scope, namespace))
      ensures var key := Key(ScopeKey(scope), namespace);
              && key in entries && entries[key].remote == Some(source)
              && source in sources && 0 < sources[source].handles
    {
      var key := Key(ScopeKey(scope), namespace);
      if key !in entries {
        source := nextId;
        sources := sources[source := RemoteSource(key, 1)];
        entries := entries[key := Entry(None, Some(source))];
        nextId := nextId + 1;
        log := log + [Change(ScopeOption(key.scope), namespace, true)];
      } else if Upgrades(State(), entries[key].remote) {
        source := entries[key].remote.value;
        sources := sources[source := sources[source].(handles := sources[source].handles + 1)];
      } else {
        source := nextId;
        sources := sources[source := RemoteSource(key, 1)];
        entries := entries[key := entries[key].(remote := Some(source))];
        nextId := nextId + 1;
      }
    }

    method DropLocalRegistration(local: LocalId)
      requires Enabled(State(), DropLocal(local))
      modifies this
      ensures State() == After(old(State()), DropLocal(local))
    {
      var key := locals[local];
      var removed := false;
      if key in entries {
        var entry := entries[key];
        var remove := entry.local.Some? && !Upgrades(State(), entry.remote);
        entries := entries[key := entry.(local := None)];
        if remove {
          entries := entries - {key};
          removed := true;
          assert entries == old(entries) - {key};
        }
      }
      locals := locals - {local};
      if removed {
        log := log + [Change(ScopeOption(key.scope), key.namespace, false)];
      }
    }

    method ReleaseRemoteRegistration(source: SourceId)
      requires Enabled(State(), ReleaseRemote(source))
      modifies this
      ensures State() == After(old(State()), ReleaseRemote(source))
    {
      sources := sources[source := sources[source].(handles := sources[source].handles - 1)];
    }

    /** The last handle is gone and the source's drop runs. */
    method DropRemoteSource(source: SourceId)
      requires Enabled(State(), FinishDrop(source))
      modifies this
      ensures State() == After(old(State()), FinishDrop(source))
    {
      var key := sources[source].key;
      var removed := false;
      if key in entries && entries[key].remote == Some(source) {
        entries := entries[key := entries[key].(remote := None)];
        if entries[key].local.None? {
          entries := entries - {key};
          removed := true;
          assert entries == old(entries) - {key};
        }
      }
      sources := sources - {source};
      if removed {
        log := log + [Change(ScopeOption(key.scope), key.namespace, false)];
      }
    }

    /** The registered namespaces a subscriber's prefix selects, in no particular order. */
    method ListNamespacesMatching(scope: Option<string>, prefix: Namespace) returns (matches: set<Namespace>)
      ensures matches == Matching(entries.Keys, scope, prefix)
    {
      matches := {};
      var rest := entries.Keys;
      while rest != {}
        invariant rest <= entries.Keys
        invariant matches == Matching(entries.Keys - rest, scope, prefix)
        decreases |rest|
      {
        var key :| key in rest;
        assert entries.Keys - (rest - {key}) == (entries.Keys - rest) + {key};
        MatchingAdd(entries.Keys - rest, key, scope, prefix);
        if key.scope == ScopeKey(scope) && prefix <= key.namespace {
          matches := matches + {key.namespace};
        }
        rest := rest - {key};
      }
      assert entries.Keys - rest == entries.Keys;
    }

    /** The best local route for a namespace, over the entries in any order. */
    method RouteNamespace(scope: Option<string>, namespace: Namespace) returns (best: Option<LocalId>)
      ensures IsBestRoute(entries, scope, namespace, best)
    {
      best := None;
      var bestLength := 0;
      ghost var bestKey := Key("", []);
      var rest := entries.Keys;
      while rest != {}
        invariant rest <= entries.Keys
        invariant best.None? ==> bestLength == 0 && forall k :: k !in rest ==> !Routes(entries, scope, namespace, k)
        invariant best.Some? ==>
                    && Routes(entries, scope, namespace, bestKey) && best == entries[bestKey].local
                    && |bestKey.namespace| == bestLength
                    && forall k :: Routes(entries, scope, namespace, k) && k !in rest && k != bestKey ==>
                        |k.namespace| < bestLength
        decreases |rest|
      {
        var key :| key in rest;
        rest := rest - {key};
        if entries[key].local.Some? && key.scope == ScopeKey(scope) {
          if key.namespace <= namespace && |key.namespace| > bestLength {
            best, bestLength, bestKey := entries[key].local, |key.namespace|, key;
          }
        }
      }
    }
  }

  lemma MatchingAdd(keys: set<Key>, key: Key, scope: Option<string>, prefix: Namespace)
    ensures Matching(keys + {key}, scope, prefix) ==
            Matching(keys, scope, prefix) + if key.scope == ScopeKey(scope) && prefix <= key.namespace
                then {key.namespace} else {}
  {
  }
}
