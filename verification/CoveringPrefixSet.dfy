/**
 * The minimal set of namespace prefixes to subscribe to upstream. It is kept incrementally: each add
 * or remove patches the roots and reports the change, and never recomputes them from all of `active`.
 */
module CoveringPrefixSet {
  type Field = seq<bv8>
  /** A prefix is a tuple of fields; a field may itself contain any byte. */
  type Prefix = seq<Field>

  datatype RootDelta = RootDelta(added: set<Prefix>, removed: set<Prefix>)

  const NO_CHANGE := RootDelta({}, {})

  /** Equal on every position that both tuples have. */
  predicate Overlaps(a: Prefix, b: Prefix) {
    forall i :: 0 <= i < |a| && i < |b| ==> a[i] == b[i]
  }

  predicate Covers(broader: Prefix, narrower: Prefix) {
    |broader| <= |narrower| && Overlaps(broader, narrower)
  }

  predicate StrictlyCovers(broader: Prefix, narrower: Prefix) {
    |broader| < |narrower| && Overlaps(broader, narrower)
  }

  // ---------------------------------------------------------------- covering is the prefix order

  lemma CoversIsPrefix(a: Prefix, b: Prefix)
    ensures Covers(a, b) <==> a <= b
    ensures StrictlyCovers(a, b) <==> a < b
    ensures Overlaps(a, b) <==> a <= b || b <= a
  {
    if Covers(a, b) {
      assert b[..|a|] == a;
    }
    if Covers(b, a) {
      assert a[..|b|] == b;
    }
  }

  lemma CoversTransitive(a: Prefix, b: Prefix, c: Prefix)
    requires Covers(a, b) && Covers(b, c)
    ensures Covers(a, c)
  {
    forall i | 0 <= i < |a| && i < |c|
      ensures a[i] == c[i]
    {
      assert a[i] == b[i] && b[i] == c[i];
    }
  }

  lemma StrictlyThrough(a: Prefix, b: Prefix, c: Prefix)
    requires Covers(a, b) && StrictlyCovers(b, c)
    ensures StrictlyCovers(a, c)
  {
    CoversTransitive(a, b, c);
  }

  lemma CoversBothWays(a: Prefix, b: Prefix)
    requires Covers(a, b) && Covers(b, a)
    ensures a == b
  {
  }

  // ---------------------------------------------------------------- the definition from scratch

  predicate IsRoot(active: set<Prefix>, p: Prefix) {
    p in active && forall q :: q in active ==> !StrictlyCovers(q, p)
  }

  /** The active prefixes that no other active prefix strictly covers. */
  ghost function RootsOf(active: set<Prefix>): set<Prefix> {
    set p | p in active && IsRoot(active, p)
  }

  ghost predicate CoveredBy(cover: set<Prefix>, p: Prefix) {
    exists q :: q in cover && Covers(q, p)
  }

  /** Distinct roots never overlap: no namespace is asked for twice. */
  lemma RootsNeverOverlap(active: set<Prefix>, p: Prefix, q: Prefix)
    requires p in RootsOf(active) && q in RootsOf(active) && p != q
    ensures !Overlaps(p, q)
  {
    assert !StrictlyCovers(p, q) && !StrictlyCovers(q, p);
    if |p| == |q| && Overlaps(p, q) {
      CoversBothWays(p, q);
    }
  }

  /** Every active prefix has a root above it; found by walking up the chain of its covers. */
  lemma {:induction false} RootAbove(active: set<Prefix>, p: Prefix) returns (root: Prefix)
    requires p in active
    ensures root in RootsOf(active) && Covers(root, p)
    decreases |p|
  {
    if IsRoot(active, p) {
      root := p;
    } else {
      var q :| q in active && StrictlyCovers(q, p);
      root := RootAbove(active, q);
      CoversTransitive(root, q, p);
    }
  }

  /** The roots cover exactly what the active prefixes cover: no namespace is lost or gained. */
  lemma RootsCoverWhatActiveCovers(active: set<Prefix>, p: Prefix)
    ensures CoveredBy(RootsOf(active), p) <==> CoveredBy(active, p)
  {
    if CoveredBy(active, p) {
      var q :| q in active && Covers(q, p);
      var root := RootAbove(active, q);
      CoversTransitive(root, q, p);
    }
  }

  /** The roots are the only antichain of active prefixes with that cover, so the definition is forced. */
  lemma RootsAreTheOnlyCover(active: set<Prefix>, chosen: set<Prefix>)
    requires chosen <= active
    requires forall p, q :: p in chosen && q in chosen && p != q ==> !Overlaps(p, q)
    requires forall p :: p in active ==> CoveredBy(chosen, p)
    ensures chosen == RootsOf(active)
  {
    forall p | p in RootsOf(active)
      ensures p in chosen
    {
      assert CoveredBy(chosen, p);
      var q :| q in chosen && Covers(q, p);
      assert !StrictlyCovers(q, p);
      CoversBothWays(q, p);
    }
    forall p | p in chosen
      ensures p in RootsOf(active)
    {
      var root := RootAbove(active, p);
      assert root in chosen;
      assert Overlaps(root, p);
    }
  }

  // ---------------------------------------------------------------- adding

  lemma CoveredAddKeepsRoots(active: set<Prefix>, p: Prefix)
    requires p !in active && CoveredBy(RootsOf(active), p)
    ensures RootsOf(active + {p}) == RootsOf(active)
  {
    var root :| root in RootsOf(active) && Covers(root, p);
    var grown := active + {p};
    if |root| == |p| {
      CoversBothWays(root, p);
    }
    assert StrictlyCovers(root, p);
    forall q
      ensures q in RootsOf(grown) <==> q in RootsOf(active)
    {
      if q in RootsOf(active) && StrictlyCovers(p, q) {
        StrictlyThrough(root, p, q);
      }
    }
  }

  lemma UncoveredAddPatchesRoots(active: set<Prefix>, p: Prefix)
    requires p !in active && !CoveredBy(RootsOf(active), p)
    ensures RootsOf(active + {p}) == (set q | q in RootsOf(active) && !Covers(p, q)) + {p}
  {
    var grown := active + {p};
    RootsCoverWhatActiveCovers(active, p);
    forall q
      ensures q in RootsOf(grown) <==> (q in RootsOf(active) && !Covers(p, q)) || q == p
    {
      if q in active && Covers(p, q) {
        if |p| == |q| {
          CoversBothWays(p, q);
        }
        assert StrictlyCovers(p, q);
      }
    }
  }

  // ---------------------------------------------------------------- removing

  lemma HiddenRemoveKeepsRoots(active: set<Prefix>, p: Prefix)
    requires p in active && p !in RootsOf(active)
    ensures RootsOf(active - {p}) == RootsOf(active)
  {
    var rest := active - {p};
    var root := RootAbove(active, p);
    assert root in rest;
    forall q
      ensures q in RootsOf(rest) <==> q in RootsOf(active)
    {
      if q in RootsOf(rest) && StrictlyCovers(p, q) {
        StrictlyThrough(root, p, q);
      }
    }
  }

  /** Removing a root exposes exactly the minimal prefixes that were under it. */
  lemma RootRemovePatchesRoots(active: set<Prefix>, p: Prefix)
    requires p in RootsOf(active)
    ensures RootsOf(active - {p})
        == (RootsOf(active) - {p}) + (set q | q in active - {p} && Covers(p, q) && IsRoot(active - {p}, q))
    ensures forall q :: q in active - {p} && Covers(p, q) ==> q !in RootsOf(active)
  {
    var rest := active - {p};
    forall q | q in rest && Covers(p, q)
      ensures q !in RootsOf(active)
    {
      if |p| == |q| {
        CoversBothWays(p, q);
      }
      assert StrictlyCovers(p, q);
    }
    forall q
      ensures q in RootsOf(rest) <==> (q in RootsOf(active) && q != p) || (q in rest && Covers(p, q) && IsRoot(rest, q))
    {
      if q in RootsOf(rest) && !Covers(p, q) {
        assert IsRoot(active, q);
      }
    }
  }

  // ---------------------------------------------------------------- the patches

  /** New roots, and what is reported of the change. */
  datatype Patch = Patch(roots: set<Prefix>, delta: RootDelta)

  /** What an add makes of the roots, looking at the roots alone. */
  function PatchAdd(active: set<Prefix>, roots: set<Prefix>, p: Prefix): Patch {
    if p in active || exists root :: root in roots && Covers(root, p) then Patch(roots, NO_CHANGE)
    else
      var removed := set root | root in roots && Covers(p, root);
      Patch(roots - removed + {p}, RootDelta({p}, removed))
  }

  /** What a remove makes of the roots, looking only at what the removed root covered. */
  function PatchRemove(active: set<Prefix>, roots: set<Prefix>, p: Prefix): Patch {
    if p !in active || p !in roots then Patch(roots, NO_CHANGE)
    else
      var rest := active - {p};
      var added := set c | c in rest && Covers(p, c) && forall other :: other in rest ==> !StrictlyCovers(other, c);
      Patch(roots - {p} + added, RootDelta(added, {p}))
  }

  /** A patch that gives the roots of `after` and reports exactly the difference from those of `before`. */
  ghost predicate IsExact(patch: Patch, before: set<Prefix>, after: set<Prefix>) {
    && patch.roots == RootsOf(after)
    && patch.delta.added == RootsOf(after) - RootsOf(before)
    && patch.delta.removed == RootsOf(before) - RootsOf(after)
  }

  lemma PatchAddIsExact(active: set<Prefix>, p: Prefix)
    ensures IsExact(PatchAdd(active, RootsOf(active), p), active, active + {p})
  {
    if p in active {
      assert active + {p} == active;
    } else if CoveredBy(RootsOf(active), p) {
      CoveredAddKeepsRoots(active, p);
    } else {
      UncoveredAddPatchesRoots(active, p);
    }
  }

  lemma PatchRemoveIsExact(active: set<Prefix>, p: Prefix)
    ensures IsExact(PatchRemove(active, RootsOf(active), p), active, active - {p})
  {
    if p !in active {
      assert active - {p} == active;
    } else if p !in RootsOf(active) {
      HiddenRemoveKeepsRoots(active, p);
    } else {
      RootRemovePatchesRoots(active, p);
      var rest := active - {p};
      var added := set c | c in rest && Covers(p, c) && forall other :: other in rest ==> !StrictlyCovers(other, c);
      assert added == set q | q in rest && Covers(p, q) && IsRoot(rest, q);
      assert p !in RootsOf(rest);
    }
  }

  /** Adding a new prefix and then removing it: the second patch undoes the first and reports its mirror image. */
  lemma AddThenRemoveMirrors(active: set<Prefix>, p: Prefix)
    requires p !in active
    ensures var there := PatchAdd(active, RootsOf(active), p);
            var back := PatchRemove(active + {p}, there.roots, p);
            back.roots == RootsOf(active) && back.delta == RootDelta(there.delta.removed, there.delta.added)
  {
    hide RootsOf;
    hide PatchAdd;
    hide PatchRemove;
    PatchAddIsExact(active, p);
    PatchRemoveIsExact(active + {p}, p);
    assert active + {p} - {p} == active;
  }

  class CoveringPrefixes {
    var active: set<Prefix>
    var roots: set<Prefix>

    ghost predicate Valid()
      reads this
    {
      roots == RootsOf(active)
    }

    constructor ()
      ensures Valid() && active == {} && roots == {}
    {
      active := {};
      roots := {};
    }

    /** The delta is exact: it takes the old roots to the new ones and names nothing that stays. */
    method Add(prefix: Prefix) returns (delta: RootDelta)
      requires Valid()
      modifies this
      ensures Valid() && active == old(active) + {prefix}
      ensures IsExact(Patch(roots, delta), old(active), active)
      ensures Patch(roots, delta) == PatchAdd(old(active), old(roots), prefix)
    {
      PatchAddIsExact(active, prefix);
      if prefix in active {
        assert active + {prefix} == active;
        return NO_CHANGE;
      }
      active := active + {prefix};
      if exists root :: root in roots && Covers(root, prefix) {
        return NO_CHANGE;
      }
      var removed := set root | root in roots && Covers(prefix, root);
      ghost var before := roots;
      roots := (set root | root in roots && root !in removed) + {prefix};
      assert roots == before - removed + {prefix};
      delta := RootDelta({prefix}, removed);
    }

    method Remove(prefix: Prefix) returns (delta: RootDelta)
      requires Valid()
      modifies this
      ensures Valid() && active == old(active) - {prefix}
      ensures IsExact(Patch(roots, delta), old(active), active)
      ensures Patch(roots, delta) == PatchRemove(old(active), old(roots), prefix)
    {
      PatchRemoveIsExact(active, prefix);
      if prefix !in active {
        assert active - {prefix} == active;
        return NO_CHANGE;
      }
      active := active - {prefix};
      if prefix !in roots {
        return NO_CHANGE;
      }
      roots := roots - {prefix};
      var added := set candidate
        | candidate in active && Covers(prefix, candidate)
          && !exists other :: other in active && StrictlyCovers(other, candidate);
      roots := roots + added;
      delta := RootDelta(added, {prefix});
      assert added == PatchRemove(old(active), old(roots), prefix).delta.added;
    }
  }

  // ---------------------------------------------------------------- whole histories

  datatype Change = Added(prefix: Prefix) | Removed(prefix: Prefix)

  /** The object's two sets, and the roots a listener holds who sees nothing but the deltas. */
  datatype Book = Book(active: set<Prefix>, roots: set<Prefix>, followed: set<Prefix>)

  function Apply(book: Book, change: Change): Book {
    var p := change.prefix;
    var patch := if change.Added? then PatchAdd(book.active, book.roots, p)
        else PatchRemove(book.active, book.roots, p);
    Book(
      if change.Added? then book.active + {p} else book.active - {p},
      patch.roots,
      book.followed - patch.delta.removed + patch.delta.added)
  }

  function After(changes: seq<Change>): Book {
    if changes == [] then Book({}, {}, {}) else Apply(After(changes[..|changes| - 1]), changes[|changes| - 1])
  }

  function LastWasAdd(changes: seq<Change>, p: Prefix): bool {
    if changes == [] then false
    else
      var last := changes[|changes| - 1];
      if last.prefix == p then last.Added? else LastWasAdd(changes[..|changes| - 1], p)
  }

  /**
   * After any history of adds and removes, each patched onto the roots before it, the roots and what a
   * listener makes of the deltas are both the roots defined from scratch, over exactly the prefixes
   * whose last change was an add.
   */
  lemma {:induction false} PatchesFollowTheDefinition(changes: seq<Change>)
    ensures var book := After(changes);
            && book.roots == RootsOf(book.active) && book.followed == RootsOf(book.active)
            && forall p :: p in book.active <==> LastWasAdd(changes, p)
  {
    hide RootsOf;
    hide PatchAdd;
    hide PatchRemove;
    if changes == [] {
      NoRoots();
    } else {
      var before, last := After(changes[..|changes| - 1]), changes[|changes| - 1];
      PatchesFollowTheDefinition(changes[..|changes| - 1]);
      PatchAddIsExact(before.active, last.prefix);
      PatchRemoveIsExact(before.active, last.prefix);
    }
  }

  lemma NoRoots()
    ensures RootsOf({}) == {}
  {
  }
}
