/** Whole updates and histories of updates: the canonical root after one update from a
    clean view, exactly when that update leaves a clean view, and what follows for runs. */
module SmtHistory {
  import opened SmtKeys
  import opened SmtTree
  import opened Options
  import opened SmtUpdate
  import opened SmtUpdateProofs

  /** The nodes readable from the root downwards are the canonical tree of `m`. */
  ghost predicate Represents(view: View, m: StateMap) {
    && Read(view, []) == StoredNode(Canon(m, []))
    && forall q: Position :: q != [] && Many(m, Parent(q)) ==> Read(view, q) == StoredNode(Canon(m, q))
  }

  /** No non-empty node is readable strictly below a position whose latest node is
      absent, empty or a leaf. */
  ghost predicate Clean(view: View) {
    forall p: Position, q: Position :: Below(p, q) && !(p in view && view[p].Internal?) ==> Read(view, q) == None
  }

  lemma {:induction false} CleanReadsNothingOutside(view: View, m: StateMap, q: Position)
    requires Represents(view, m) && Clean(view) && q != [] && !Many(m, Parent(q))
    ensures Read(view, q) == None
    decreases |q|
  {
    var a := Parent(q);
    if a == [] || Many(m, Parent(a)) {
      assert Read(view, a) == StoredNode(Canon(m, a));
      assert !Canon(m, a).Fork?;
      assert Below(a, q) by { assert q[..|a|] == a; }
    } else {
      CleanReadsNothingOutside(view, m, a);
      assert Below(a, q) by { assert q[..|a|] == a; }
    }
  }

  /** A clean view of a map reads exactly the map's canonical tree and nothing else. */
  lemma CleanViewsMirror(view: View, m: StateMap)
    ensures Represents(view, m) && Clean(view) <==> Mirrors(view, m, [])
  {
    if Represents(view, m) && Clean(view) {
      forall q: Position | Below([], q)
        ensures Read(view, q) == if Many(m, Parent(q)) then StoredNode(Canon(m, q)) else None
      {
        if !Many(m, Parent(q)) {
          CleanReadsNothingOutside(view, m, q);
        }
      }
    }
    if Mirrors(view, m, []) {
      forall q: Position | q != [] ensures Below([], q) {
      }
      forall p: Position, q: Position | Below(p, q) && !(p in view && view[p].Internal?)
        ensures Read(view, q) == None
      {
        BelowIsViaAChild(p, q);
        assert !Many(m, p) by {
          if Many(m, p) {
            ForkIsReadable(view, m, p);
          }
        }
        if Many(m, Parent(q)) {
          ManyIsMonotone(m, p, Parent(q));
        }
        assert Below([], q);
      }
    }
  }

  lemma ForkIsReadable(view: View, m: StateMap, p: Position)
    requires Mirrors(view, m, []) && Many(m, p)
    ensures p in view && view[p].Internal?
  {
    if p != [] {
      assert Below([], p);
      assert Parent(p) <= p;
      ManyIsMonotone(m, Parent(p), p);
    }
  }

  /** The prefixes shared by at least two live keys still are after the update. */
  ghost predicate KeepsForks(m: StateMap, newMap: StateMap) {
    forall p: Position :: Many(m, p) ==> Many(newMap, p)
  }

  /** One update from a clean view of `m`: the canonical root of the updated map, and
      exactly its canonical tree readable from the root. */
  lemma UpdateFromCleanView(view: View, m: StateMap, cs: seq<Commitment>)
    requires WellPlaced(view) && Represents(view, m) && Clean(view) && SliceAt(cs, [])
    ensures var newMap, a := ApplyWrites(m, LastWrites(cs)), ApplySorted(view, cs);
            && a.root == CanonRoot(newMap)
            && Represents(view + a.writes, newMap)
            && WellPlaced(view + a.writes)
  {
    assert ApplySorted(view, cs) == PlaceRoot(UpdateSubtree(view, [], cs));
    hide *;
    CleanViewsMirror(view, m);
    UpdateIsCorrect(view, m, [], cs);
    PlacedRootIsCanonical(view, UpdateSubtree(view, [], cs), ApplyWrites(m, LastWrites(cs)));
  }

  lemma PlacedRootIsCanonical(view: View, u: Update, m: StateMap)
    requires WellPlaced(view) && UpdatePlaced(u, []) && Correct(view, u, m, [])
    ensures PlaceRoot(u).root == CanonRoot(m)
    ensures Represents(view + PlaceRoot(u).writes, m) && WellPlaced(view + PlaceRoot(u).writes)
  {
    hide Canon;
    hide Many;
    var a := PlaceRoot(u);
    StoredSummary(m, []);
    forall q: Position | q != [] && Many(m, Parent(q))
      ensures Read(view + a.writes, q) == StoredNode(Canon(m, q))
    {
      assert Below([], q);
      assert Read(view + a.writes, q) == Read(view + u.writes, q);
    }
  }

  /** The view stays clean exactly when no shared prefix drops below two live keys. */
  lemma StaysCleanExactlyWhenForksAreKept(view: View, m: StateMap, cs: seq<Commitment>)
    requires WellPlaced(view) && Represents(view, m) && Clean(view) && SliceAt(cs, [])
    ensures Clean(view + ApplySorted(view, cs).writes) <==> KeepsForks(m, ApplyWrites(m, LastWrites(cs)))
  {
    var newMap, a := ApplyWrites(m, LastWrites(cs)), ApplySorted(view, cs);
    CleanViewsMirror(view, m);
    UpdateFromCleanView(view, m, cs);
    UpdateIsCorrect(view, m, [], cs);
    CleanViewsMirror(view + a.writes, newMap);
    forall q: Position | q != [] && !Many(newMap, Parent(q))
      ensures Read(view + a.writes, q) == Read(view, q)
    {
      assert q !in a.writes;
    }
    if KeepsForks(m, newMap) {
      forall q: Position | q != [] && !Many(newMap, Parent(q)) ensures Read(view + a.writes, q) == None {
        assert Below([], q);
      }
    }
    if Clean(view + a.writes) {
      forall p: Position | Many(m, p) ensures Many(newMap, p) {
        if !Many(newMap, p) {
          LostForkLeavesANode(view, m, p);
        }
      }
    }
  }

  /** Some child of a fork is readable. */
  lemma LostForkLeavesANode(view: View, m: StateMap, p: Position)
    requires Mirrors(view, m, []) && Many(m, p)
    ensures exists q: Position :: q != [] && Parent(q) == p && Below([], q) && Read(view, q) != None
  {
    ManyIsAboveTheBottom(m, p);
    ForkChildren(m, p);
    forall b: bool ensures Read(view, p + [b]) == StoredNode(Canon(m, p + [b])) {
      ParentOfChild(p, b);
      assert Below([], p + [b]);
    }
    ParentOfChild(p, false);
    ParentOfChild(p, true);
    assert Below([], p + [false]) && Below([], p + [true]);
  }

  ghost predicate NonDeleting(cs: seq<Commitment>) {
    forall i :: 0 <= i < |cs| ==> cs[i].value != Zero
  }

  lemma NonDeletingKeepsForks(m: StateMap, cs: seq<Commitment>)
    requires NonDeleting(cs)
    ensures KeepsForks(m, ApplyWrites(m, LastWrites(cs)))
  {
    var newMap := ApplyWrites(m, LastWrites(cs));
    forall k | k in m ensures k in newMap {
      LastWritesKeys(cs, k);
    }
  }

  // ---- Histories ----

  /** Sorted commitment slices, oldest first. */
  type History = seq<seq<Commitment>>

  ghost predicate WellFormed(h: History) {
    forall i :: 0 <= i < |h| ==> SliceAt(h[i], [])
  }

  ghost function StateAfter(h: History): StateMap {
    if h == [] then map[] else ApplyWrites(StateAfter(h[..|h| - 1]), LastWrites(h[|h| - 1]))
  }

  /** Every update's writes over the earlier ones, starting from an empty store. */
  ghost function ViewAfter(h: History): (view: View)
    requires WellFormed(h)
    ensures WellPlaced(view)
  {
    if h == [] then map[]
    else
      var view := ViewAfter(h[..|h| - 1]);
      view + ApplySorted(view, h[|h| - 1]).writes
  }

  /** The root a reader finds at the root position. */
  ghost function RootAfter(h: History): Digest
    requires WellFormed(h)
  {
    var view := ViewAfter(h);
    if [] in view then NodeHash(view[[]]) else Zero
  }

  /** Every prefix of the history keeps its forks. */
  ghost predicate KeepsForksThroughout(h: History) {
    forall i :: 0 <= i < |h| ==> KeepsForks(StateAfter(h[..i]), StateAfter(h[..i + 1]))
  }

  /** In a fork-keeping history the readable tree is the canonical tree of the final map. */
  lemma {:induction false} HistoryIsCanonical(h: History)
    requires WellFormed(h) && KeepsForksThroughout(h)
    ensures Represents(ViewAfter(h), StateAfter(h)) && Clean(ViewAfter(h))
    ensures RootAfter(h) == CanonRoot(StateAfter(h))
  {
    if h == [] {
      assert forall q: Position, m: StateMap :: m == map[] ==> !Many(m, q);
    } else {
      var init, last := h[..|h| - 1], h[|h| - 1];
      forall i | 0 <= i < |init| ensures KeepsForks(StateAfter(init[..i]), StateAfter(init[..i + 1])) {
        assert init[..i] == h[..i] && init[..i + 1] == h[..i + 1];
      }
      HistoryIsCanonical(init);
      UpdateFromCleanView(ViewAfter(init), StateAfter(init), last);
      StaysCleanExactlyWhenForksAreKept(ViewAfter(init), StateAfter(init), last);
      assert h[..|h| - 1 + 1] == h;
    }
    StoredSummary(StateAfter(h), []);
  }

  lemma NonDeletingHistoriesKeepForks(h: History)
    requires WellFormed(h) && forall i :: 0 <= i < |h| ==> NonDeleting(h[i])
    ensures KeepsForksThroughout(h)
  {
    forall i | 0 <= i < |h| ensures KeepsForks(StateAfter(h[..i]), StateAfter(h[..i + 1])) {
      assert h[..i + 1][..i] == h[..i] && h[..i + 1][i] == h[i];
      NonDeletingKeepsForks(StateAfter(h[..i]), h[i]);
    }
  }

  /** Two non-deleting histories have the same root exactly when they end in the same map. */
  lemma RootDependsOnlyOnTheFinalMap(g: History, h: History)
    requires WellFormed(g) && forall i :: 0 <= i < |g| ==> NonDeleting(g[i])
    requires WellFormed(h) && forall i :: 0 <= i < |h| ==> NonDeleting(h[i])
    ensures RootAfter(g) == RootAfter(h) <==> StateAfter(g) == StateAfter(h)
  {
    NonDeletingHistoriesKeepForks(g);
    NonDeletingHistoriesKeepForks(h);
    HistoryIsCanonical(g);
    HistoryIsCanonical(h);
    if RootAfter(g) == RootAfter(h) {
      CanonRootIsInjective(StateAfter(g), StateAfter(h));
    }
  }
}
