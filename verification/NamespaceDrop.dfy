/**
 * A local registration's drop looked at more closely. Under the registry's write lock it upgrades the
 * entry's weak reference to see whether a remote source is alive, and so holds a handle of its own
 * until it is done. Other tasks give up handles meanwhile, without the lock. If that leaves the drop
 * with the last one, the source's own drop starts there and asks for the lock its task already holds.
 */
module NamespaceDrop {
  import opened Options
  import opened NamespaceSpec

  /** The registry with its lock held; `temp` is the source the dropping task holds a handle of. */
  datatype Locked = Locked(registry: Registry, temp: Option<SourceId>)

  function SetHandles(r: Registry, source: SourceId, handles: nat): Registry
    requires source in r.sources
  {
    r.(sources := r.sources[source := r.sources[source].(handles := handles)])
  }

  /** The entry has a local route, and its weak reference upgrades: the drop now holds one handle more. */
  predicate TakesHandle(r: Registry, local: LocalId)
    requires local in r.locals
  {
    var key := r.locals[local];
    key in r.entries && r.entries[key].local.Some? && Upgrades(r, r.entries[key].remote)
  }

  function BeginDrop(r: Registry, local: LocalId): Locked
    requires local in r.locals
  {
    var after := AfterDropLocal(r, local);
    if TakesHandle(r, local) then
      var source := r.entries[r.locals[local]].remote.value;
      Locked(SetHandles(after, source, after.sources[source].handles + 1), Some(source))
    else Locked(after, None)
  }

  /** The handles held by others. */
  function Others(l: Locked, source: SourceId): int
    requires source in l.registry.sources
  {
    l.registry.sources[source].handles - if l.temp == Some(source) then 1 else 0
  }

  /** Others give up one handle after the other while the lock is held; None if there is none to give up. */
  function Released(l: Locked, releases: seq<SourceId>): Option<Locked> {
    if releases == [] then Some(l)
    else
      var before, last := Released(l, releases[..|releases| - 1]), releases[|releases| - 1];
      if before.None? || last !in before.value.registry.sources || Others(before.value, last) <= 0 then None
      else Some(Locked(AfterReleaseRemote(before.value.registry, last), before.value.temp))
  }

  /** The same releases on a registry nobody has locked. */
  function GivenUp(r: Registry, releases: seq<SourceId>): Option<Registry> {
    if releases == [] then Some(r)
    else
      var before, last := GivenUp(r, releases[..|releases| - 1]), releases[|releases| - 1];
      if before.None? || !Enabled(before.value, ReleaseRemote(last)) then None
      else Some(AfterReleaseRemote(before.value, last))
  }

  ghost predicate HoldsOne(l: Locked) {
    l.temp.Some? ==> l.temp.value in l.registry.sources && 0 < l.registry.sources[l.temp.value].handles
  }

  /** The drop is done with the entry and lets go of its handle. */
  function EndDrop(l: Locked): Registry
    requires HoldsOne(l)
  {
    if l.temp.None? then l.registry
    else SetHandles(l.registry, l.temp.value, l.registry.sources[l.temp.value].handles - 1)
  }

  /** The handle the drop lets go of is the last one, and the lock is still held. */
  ghost predicate LastInsideLock(l: Locked) {
    l.temp.Some? && l.temp.value in l.registry.sources && l.registry.sources[l.temp.value].handles == 1
  }

  function Count(releases: seq<SourceId>, source: SourceId): nat {
    if releases == [] then 0
    else Count(releases[..|releases| - 1], source) + if releases[|releases| - 1] == source then 1 else 0
  }

  lemma BeginHoldsOne(r: Registry, local: LocalId)
    requires local in r.locals
    ensures HoldsOne(BeginDrop(r, local)) && EndDrop(BeginDrop(r, local)) == AfterDropLocal(r, local)
    ensures BeginDrop(r, local).temp.Some? <==> TakesHandle(r, local)
    ensures var l := BeginDrop(r, local);
            l.temp.Some? ==>
              && l.temp.value in r.sources
              && l.registry.sources[l.temp.value].handles == r.sources[l.temp.value].handles + 1
  {
    if TakesHandle(r, local) {
      var after, source := AfterDropLocal(r, local), r.entries[r.locals[local]].remote.value;
      assert after.sources == r.sources;
      assert EndDrop(BeginDrop(r, local)).sources == after.sources;
    }
  }

  /** A release and the end of the drop can be exchanged. */
  lemma ReleaseBeforeEnd(l: Locked, source: SourceId)
    requires HoldsOne(l) && source in l.registry.sources && 0 < Others(l, source)
    ensures var l' := Locked(AfterReleaseRemote(l.registry, source), l.temp);
            && HoldsOne(l') && Enabled(EndDrop(l), ReleaseRemote(source))
            && EndDrop(l') == AfterReleaseRemote(EndDrop(l), source)
  {
    var l' := Locked(AfterReleaseRemote(l.registry, source), l.temp);
    assert EndDrop(l').sources == AfterReleaseRemote(EndDrop(l), source).sources;
  }

  lemma {:induction false} ReleasesBeforeEnd(l: Locked, releases: seq<SourceId>)
    requires HoldsOne(l) && Released(l, releases).Some?
    ensures var l' := Released(l, releases).value;
            && HoldsOne(l') && l'.temp == l.temp && GivenUp(EndDrop(l), releases) == Some(EndDrop(l'))
            && (l.temp.Some? ==>
                  var source := l.temp.value;
                  l'.registry.sources[source].handles + Count(releases, source) == l.registry.sources[source].handles)
  {
    hide EndDrop;
    if releases != [] {
      var before, last := releases[..|releases| - 1], releases[|releases| - 1];
      ReleasesBeforeEnd(l, before);
      ReleaseBeforeEnd(Released(l, before).value, last);
    }
  }

  /**
   * A local drop with others releasing handles meanwhile leaves the registry of a drop in one step
   * followed by the releases. Its own handle is the last one, so that the source's drop starts under
   * the lock, if and only if every handle there was at the upgrade has been released before it is done.
   */
  lemma DropUnderLock(r: Registry, local: LocalId, releases: seq<SourceId>)
    requires local in r.locals && Released(BeginDrop(r, local), releases).Some?
    ensures var l := Released(BeginDrop(r, local), releases).value;
            && HoldsOne(l) && GivenUp(AfterDropLocal(r, local), releases) == Some(EndDrop(l))
            && (LastInsideLock(l) <==>
                  && TakesHandle(r, local)
                  && var source := r.entries[r.locals[local]].remote.value;
                     Count(releases, source) == r.sources[source].handles)
  {
    hide AfterDropLocal;
    BeginHoldsOne(r, local);
    ReleasesBeforeEnd(BeginDrop(r, local), releases);
  }

  function Repeat(source: SourceId, n: nat): seq<SourceId> {
    if n == 0 then [] else Repeat(source, n - 1) + [source]
  }

  lemma RepeatOne(source: SourceId, n: nat)
    requires 0 < n
    ensures var all := Repeat(source, n);
            all != [] && all[..|all| - 1] == Repeat(source, n - 1) && all[|all| - 1] == source
  {
  }

  lemma {:induction false} AllOthersRelease(l: Locked, source: SourceId, n: nat)
    requires HoldsOne(l) && l.temp == Some(source) && n < l.registry.sources[source].handles
    ensures Released(l, Repeat(source, n)).Some? && Count(Repeat(source, n), source) == n
  {
    hide EndDrop;
    hide Repeat;
    if n == 0 {
      RepeatNone(source);
    } else {
      RepeatOne(source, n);
      AllOthersRelease(l, source, n - 1);
      ReleasesBeforeEnd(l, Repeat(source, n - 1));
    }
  }

  lemma RepeatNone(source: SourceId)
    ensures Repeat(source, 0) == []
  {
  }

  /** That can happen to every drop that takes a handle. */
  lemma DropCanBeLast(r: Registry, local: LocalId) returns (releases: seq<SourceId>)
    requires local in r.locals && TakesHandle(r, local)
    ensures Released(BeginDrop(r, local), releases).Some?
        && LastInsideLock(Released(BeginDrop(r, local), releases).value)
  {
    hide AfterDropLocal;
    var source := r.entries[r.locals[local]].remote.value;
    BeginHoldsOne(r, local);
    releases := Repeat(source, r.sources[source].handles);
    AllOthersRelease(BeginDrop(r, local), source, r.sources[source].handles);
    DropUnderLock(r, local, releases);
  }
}
