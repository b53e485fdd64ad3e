/** What one tree update computes: from a clean view of a map, the canonical tree of
    the updated map. Also exactly when the result is a clean view again. */
module SmtUpdateProofs {
  import opened SmtKeys
  import opened SmtTree
  import opened Options
  import opened SmtUpdate

  // ---- Writes as maps ----

  /** The value each key is last given. */
  function LastWrites(cs: seq<Commitment>): map<ResourceId, Digest> {
    if cs == [] then map[]
    else LastWrites(cs[..|cs| - 1])[cs[|cs| - 1].key := cs[|cs| - 1].value]
  }

  /** The state after writing `w` over `m`; the empty hash deletes. */
  function ApplyWrites(m: StateMap, w: map<ResourceId, Digest>): StateMap {
    (m + w) - (set k | k in w && w[k] == Zero)
  }

  lemma {:induction false} LastWritesConcat(a: seq<Commitment>, b: seq<Commitment>)
    ensures LastWrites(a + b) == LastWrites(a) + LastWrites(b)
  {
    if b == [] {
      assert a + b == a;
    } else {
      assert (a + b)[..|a + b| - 1] == a + b[..|b| - 1];
      LastWritesConcat(a, b[..|b| - 1]);
    }
  }

  lemma {:induction false} LastWritesKeys(cs: seq<Commitment>, k: ResourceId)
    ensures k in LastWrites(cs) <==> exists i :: 0 <= i < |cs| && cs[i].key == k
    ensures k in LastWrites(cs) ==>
              exists i :: 0 <= i < |cs| && cs[i] == Commitment(k, LastWrites(cs)[k])
  {
    if cs != [] {
      var init := cs[..|cs| - 1];
      LastWritesKeys(init, k);
      assert cs == init + [cs[|cs| - 1]];
      if cs[|cs| - 1].key != k && k in LastWrites(cs) {
        var i :| 0 <= i < |init| && init[i] == Commitment(k, LastWrites(init)[k]);
        assert cs[i] == Commitment(k, LastWrites(cs)[k]);
      } else if cs[|cs| - 1].key == k {
        assert cs[|cs| - 1] == Commitment(k, LastWrites(cs)[k]);
      }
    }
  }

  /** Commitment `i` is the last one for `k`, and gives it `v`. */
  predicate IsLast(cs: seq<Commitment>, i: int, k: ResourceId, v: Digest) {
    0 <= i < |cs| && cs[i] == Commitment(k, v) && forall j :: i < j < |cs| ==> cs[j].key != k
  }

  /** A key is given exactly the value of its last commitment. */
  lemma {:induction false} LastWriteWins(cs: seq<Commitment>, k: ResourceId, v: Digest)
    ensures k in LastWrites(cs) && LastWrites(cs)[k] == v <==> exists i :: IsLast(cs, i, k, v)
  {
    if cs != [] {
      var init, last := cs[..|cs| - 1], cs[|cs| - 1];
      LastWriteWins(init, k, v);
      if last.key == k {
        assert last.value == v ==> IsLast(cs, |cs| - 1, k, v);
      } else {
        assert forall i :: IsLast(cs, i, k, v) <==> IsLast(init, i, k, v);
      }
    }
  }

  /** Writing gives every written key its value, the empty hash none, and leaves the rest. */
  lemma WritesDecide(m: StateMap, w: map<ResourceId, Digest>, k: ResourceId)
    ensures k in w ==> (k in ApplyWrites(m, w) <==> w[k] != Zero) && (w[k] != Zero ==> ApplyWrites(m, w)[k] == w[k])
    ensures k !in w ==> (k in ApplyWrites(m, w) <==> k in m) && (k in m ==> ApplyWrites(m, w)[k] == m[k])
  {
  }

  lemma AppendLarger(es: seq<Commitment>, e: Commitment, p: Position)
    requires SliceAt(es, p) && p <= e.key && forall i :: 0 <= i < |es| ==> Less(es[i].key, e.key)
    ensures SliceAt(es + [e], p)
  {
    var ks, out := KeysOf(es), KeysOf(es + [e]);
    assert out == ks + [e.key];
  }

  lemma LastWritesAppend(es: seq<Commitment>, e: Commitment)
    ensures LastWrites(es + [e]) == LastWrites(es)[e.key := e.value]
  {
    assert (es + [e])[..|es|] == es;
  }

  /** In a slice each key occurs once, so its last write is its only one. */
  lemma SliceWrites(cs: seq<Commitment>, p: Position, i: nat)
    requires SliceAt(cs, p) && i < |cs|
    ensures cs[i].key in LastWrites(cs) && LastWrites(cs)[cs[i].key] == cs[i].value
    ensures p <= cs[i].key
  {
    assert p <= KeysOf(cs)[i];
    hide *;
    var k := cs[i].key;
    LastWritesKeys(cs, k);
    var j :| 0 <= j < |cs| && cs[j] == Commitment(k, LastWrites(cs)[k]);
    SliceKeysDiffer(cs, p, i, j);
  }

  lemma SliceKeysDiffer(cs: seq<Commitment>, p: Position, i: nat, j: nat)
    requires SliceAt(cs, p) && i < |cs| && j < |cs|
    ensures cs[i].key == cs[j].key ==> i == j
  {
    hide *;
    if i < j {
      TwoEntriesAreAboveTheBottom(cs, p, i, j);
    } else if j < i {
      TwoEntriesAreAboveTheBottom(cs, p, j, i);
    }
  }

  // ---- Views of a map ----

  function Parent(q: Position): Position
    requires q != []
  {
    q[..|q| - 1]
  }

  ghost predicate Below(p: Position, q: Position) {
    p <= q && p != q
  }

  /** The node an update stores for a canonical subtree. */
  function StoredNode(t: Tree): Option<Node> {
    match t
    case Nil => None
    case Tip(k, v) => Some(LeafNode(k, v))
    case Fork(_, _) => Some(Internal(Summary(t).hash))
  }

  /** The readable nodes at and below `p` are exactly the canonical tree of `m` there. */
  ghost predicate Mirrors(view: View, m: StateMap, p: Position) {
    && Read(view, p) == StoredNode(Canon(m, p))
    && forall q: Position :: Below(p, q) ==>
         Read(view, q) == if Many(m, Parent(q)) then StoredNode(Canon(m, q)) else None
  }

  /** Nothing is readable strictly below `p`. */
  ghost predicate BareBelow(view: View, p: Position) {
    forall q: Position :: Below(p, q) ==> Read(view, q) == None
  }

  /** The written nodes, over the old ones, give the canonical tree of `m` below `p`;
      nothing outside that tree is written. */
  ghost predicate WritesCanon(view: View, writes: View, m: StateMap, p: Position) {
    && (forall q :: q in writes ==> Below(p, q) && Many(m, Parent(q)))
    && (forall q: Position :: Below(p, q) && Many(m, Parent(q)) ==>
          Read(view + writes, q) == StoredNode(Canon(m, q)))
  }

  lemma ParentOfChild(p: Position, b: bool)
    requires |p| < DEPTH
    ensures Parent(p + [b]) == p && Below(p, p + [b])
  {
    assert (p + [b])[..|p|] == p;
  }

  /** A position below `p` is a child of `p` or below one. */
  lemma BelowIsViaAChild(p: Position, q: Position)
    requires Below(p, q)
    ensures |p| < |q| && p + [q[|p|]] <= q && p <= Parent(q)
    ensures q == p + [q[|p|]] ==> Parent(q) == p
    ensures q != p + [q[|p|]] ==> p + [q[|p|]] <= Parent(q)
  {
    assert q[..|p|] == p;
    assert q[..|q|] == q;
    assert q[..|p| + 1] == p + [q[|p|]];
    assert Parent(q)[..|p|] == p;
    if q != p + [q[|p|]] {
      assert Parent(q)[..|p| + 1] == p + [q[|p|]];
    }
  }

  lemma BelowChildIsBelow(p: Position, b: bool, q: Position)
    requires |p| < DEPTH && p + [b] <= q
    ensures Below(p, q)
  {
    assert q[..|p|] == (p + [b])[..|p|] == p;
  }

  lemma ManyIsMonotone(m: StateMap, p: Position, q: Position)
    requires p <= q && Many(m, q)
    ensures Many(m, p)
  {
    var j, k :| j in m && k in m && j != k && q <= j && q <= k;
    assert j[..|p|] == q[..|p|] && k[..|p|] == q[..|p|];
  }

  lemma ManyIsLocal(m: StateMap, n: StateMap, p: Position, q: Position)
    requires AgreeUnder(m, n, p) && p <= q
    ensures Many(m, q) <==> Many(n, q)
    ensures AgreeUnder(m, n, q)
  {
    forall k | k in m.Keys + n.Keys && q <= k ensures p <= k {
      assert k[..|p|] == q[..|p|];
    }
  }

  lemma WritesCanonIsLocal(view: View, writes: View, m: StateMap, n: StateMap, p: Position)
    requires AgreeUnder(m, n, p) && WritesCanon(view, writes, m, p)
    ensures WritesCanon(view, writes, n, p)
  {
    forall q: Position | Below(p, q)
      ensures (Many(m, Parent(q)) <==> Many(n, Parent(q))) && Canon(m, q) == Canon(n, q)
    {
      BelowIsViaAChild(p, q);
      ManyIsLocal(m, n, p, Parent(q));
      ManyIsLocal(m, n, p, q);
      CanonIsLocal(m, n, q);
    }
  }

  lemma StoredSummary(m: StateMap, p: Position)
    ensures ChildSummary(StoredNode(Canon(m, p))) == Summary(Canon(m, p))
  {
    KindOfCanon(m, p);
    if !Vacant(m, p) && !Many(m, p) {
      var k :| k in m && p <= k;
      assert Canon(m, p) == Tip(k, m[k]);
    }
  }

  // ---- The recursion computes canonical trees ----

  /** `u` is the update of the subtree at `p` to the entries of `m` there. */
  ghost predicate Correct(view: View, u: Update, m: StateMap, p: Position) {
    u.node == StoredNode(Canon(m, p)) && WritesCanon(view, u.writes, m, p)
  }

  lemma CorrectIsLocal(view: View, u: Update, m: StateMap, n: StateMap, p: Position)
    requires AgreeUnder(m, n, p) && Correct(view, u, m, p)
    ensures Correct(view, u, n, p)
  {
    CanonIsLocal(m, n, p);
    WritesCanonIsLocal(view, u.writes, m, n, p);
  }

  /** Joining the children's nodes gives the parent's; it bubbles exactly when the
      parent is not a fork. */
  lemma JoinedNodeIsCanonical(m: StateMap, p: Position)
    requires |p| < DEPTH
    ensures var l, r := StoredNode(Canon(m, p + [false])), StoredNode(Canon(m, p + [true]));
            && JoinedNode(l, r) == StoredNode(Canon(m, p))
            && (Bubbles(l, r) <==> !Many(m, p))
  {
    if Many(m, p) {
      ForkJoins(m, p);
    } else if Vacant(m, p) {
      VacantChildren(m, p);
    } else {
      var k :| k in m && p <= k;
      LoneJoins(m, p, k);
    }
  }

  lemma ForkJoins(m: StateMap, p: Position)
    requires |p| < DEPTH && Many(m, p)
    ensures var l, r := StoredNode(Canon(m, p + [false])), StoredNode(Canon(m, p + [true]));
            JoinedNode(l, r) == StoredNode(Canon(m, p)) && !Bubbles(l, r)
  {
    ForkChildren(m, p);
    CombineIsCanonical(m, p);
    StoredSummary(m, p + [false]);
    StoredSummary(m, p + [true]);
  }

  lemma LoneJoins(m: StateMap, p: Position, k: ResourceId)
    requires |p| < DEPTH && !Many(m, p) && k in m && p <= k
    ensures var l, r := StoredNode(Canon(m, p + [false])), StoredNode(Canon(m, p + [true]));
            JoinedNode(l, r) == StoredNode(Canon(m, p)) && Bubbles(l, r)
  {
    LoneEntry(m, p, k);
    assert p + [k[|p|]] == if k[|p|] then p + [true] else p + [false];
    assert p + [!k[|p|]] == if k[|p|] then p + [false] else p + [true];
  }

  lemma JoinedIsCorrect(view: View, m: StateMap, p: Position, left: Update, right: Update)
    requires |p| < DEPTH && UpdatePlaced(left, p + [false]) && UpdatePlaced(right, p + [true])
    requires Correct(view, left, m, p + [false]) && Correct(view, right, m, p + [true])
    ensures Correct(view, Joined(view, p, left, right), m, p)
  {
    JoinedNodeIsCanonical(m, p);
    var w := Joined(view, p, left, right).writes;
    forall q | q in w ensures Below(p, q) && Many(m, Parent(q)) {
      JoinedWritesBelow(view, m, p, left, right, q);
    }
    forall q: Position | Below(p, q) && Many(m, Parent(q))
      ensures Read(view + w, q) == StoredNode(Canon(m, q))
    {
      JoinedReads(view, m, p, left, right, q);
    }
  }

  lemma JoinedWritesBelow(view: View, m: StateMap, p: Position, left: Update, right: Update, q: Position)
    requires |p| < DEPTH && UpdatePlaced(left, p + [false]) && UpdatePlaced(right, p + [true])
    requires Bubbles(left.node, right.node) <==> !Many(m, p)
    requires q in left.writes ==> Below(p + [false], q) && Many(m, Parent(q))
    requires q in right.writes ==> Below(p + [true], q) && Many(m, Parent(q))
    requires q in Joined(view, p, left, right).writes
    ensures Below(p, q) && Many(m, Parent(q))
  {
    ParentOfChild(p, false);
    ParentOfChild(p, true);
    if q in left.writes {
      BelowChildIsBelow(p, false, q);
    } else if q in right.writes {
      BelowChildIsBelow(p, true, q);
    }
  }

  lemma JoinedReads(view: View, m: StateMap, p: Position, left: Update, right: Update, q: Position)
    requires |p| < DEPTH && UpdatePlaced(left, p + [false]) && UpdatePlaced(right, p + [true])
    requires Correct(view, left, m, p + [false]) && Correct(view, right, m, p + [true])
    requires Below(p, q) && Many(m, Parent(q))
    ensures Read(view + Joined(view, p, left, right).writes, q) == StoredNode(Canon(m, q))
  {
    JoinedNodeIsCanonical(m, p);
    BelowIsViaAChild(p, q);
    ManyIsMonotone(m, p, Parent(q));
    ReadsOnOneSide(view, p, left, right, q);
    if q[|p|] {
      assert p + [q[|p|]] == p + [true];
    } else {
      assert p + [q[|p|]] == p + [false];
    }
  }

  /** Below one child only that child's writes matter; at the child, only its own write. */
  lemma ReadsOnOneSide(view: View, p: Position, left: Update, right: Update, q: Position)
    requires |p| < DEPTH && UpdatePlaced(left, p + [false]) && UpdatePlaced(right, p + [true])
    requires !Bubbles(left.node, right.node)
    requires forall r :: r in left.writes ==> Below(p + [false], r)
    requires forall r :: r in right.writes ==> Below(p + [true], r)
    requires |p| < |q|
    ensures var w := Joined(view, p, left, right).writes;
            && (Below(p + [false], q) ==> Read(view + w, q) == Read(view + left.writes, q))
            && (Below(p + [true], q) ==> Read(view + w, q) == Read(view + right.writes, q))
            && (q == p + [false] ==> Read(view + w, q) == left.node)
            && (q == p + [true] ==> Read(view + w, q) == right.node)
  {
    SideOf(p, false, q);
    SideOf(p, true, q);
    var lw, rw := ChildWrites(view, p + [false], left.node), ChildWrites(view, p + [true], right.node);
    assert q in left.writes ==> Below(p + [false], q);
    assert q in right.writes ==> Below(p + [true], q);
    Layers(view, left.writes, right.writes, lw, rw, q);
    ChildReads(view, p + [false], left.node);
    ChildReads(view, p + [true], right.node);
  }

  lemma SideOf(p: Position, b: bool, q: Position)
    requires |p| < DEPTH && |p| < |q|
    ensures p + [b] <= q ==> q[|p|] == b && p + [!b] != q
  {
    assert (p + [b])[|p|] == b && (p + [!b])[|p|] == !b;
  }

  lemma ChildReads(view: View, p: Position, child: Option<Node>)
    requires child.Some? ==> child.value != EmptyNode && PlacedAt(p, child.value)
    ensures Read(view + ChildWrites(view, p, child), p) == child
  {
  }

  /** A read through four layers of writes sees the topmost one holding the position. */
  lemma Layers(view: View, a: View, b: View, c: View, d: View, q: Position)
    ensures var r := Read(view + (a + b + c + d), q);
            && (q !in b && q !in c && q !in d ==> r == Read(view + a, q))
            && (q !in a && q !in c && q !in d ==> r == Read(view + b, q))
            && (q !in a && q !in b && q !in d ==> r == Read(view + c, q))
            && (q !in a && q !in b && q !in c ==> r == Read(view + d, q))
  {
  }

  /** Below one child, only that half of the slice has an effect. */
  lemma HalvesAgree(m: StateMap, a: seq<Commitment>, b: seq<Commitment>, p: Position)
    requires |p| < DEPTH && SliceAt(a, p + [false]) && SliceAt(b, p + [true])
    ensures var newMap := ApplyWrites(m, LastWrites(a + b));
            && AgreeUnder(ApplyWrites(m, LastWrites(a)), newMap, p + [false])
            && AgreeUnder(ApplyWrites(m, LastWrites(b)), newMap, p + [true])
  {
    var l, r := LastWrites(a), LastWrites(b);
    SliceKeysUnder(a, p + [false]);
    SliceKeysUnder(b, p + [true]);
    DisjointWritesAgree(m, l, r, p);
    assert LastWrites(a + b) == l + r by { LastWritesConcat(a, b); }
  }

  lemma DisjointWritesAgree(m: StateMap, l: map<ResourceId, Digest>, r: map<ResourceId, Digest>, p: Position)
    requires |p| < DEPTH
    requires (forall k :: k in l ==> p + [false] <= k) && (forall k :: k in r ==> p + [true] <= k)
    ensures AgreeUnder(ApplyWrites(m, l), ApplyWrites(m, l + r), p + [false])
    ensures AgreeUnder(ApplyWrites(m, r), ApplyWrites(m, l + r), p + [true])
  {
    forall k | k in l ensures !(p + [true] <= k) {
      SideOf(p, false, k);
      SideOf(p, true, k);
    }
    forall k | k in r ensures !(p + [false] <= k) {
      SideOf(p, false, k);
      SideOf(p, true, k);
    }
  }

  lemma SliceKeysUnder(cs: seq<Commitment>, p: Position)
    requires SliceAt(cs, p)
    ensures forall k :: k in LastWrites(cs) ==> p <= k
  {
    forall k | k in LastWrites(cs) ensures p <= k {
      LastWritesKeys(cs, k);
      var i :| 0 <= i < |cs| && cs[i].key == k;
      assert p <= KeysOf(cs)[i];
    }
  }

  lemma {:induction false} SplitIsCorrect(view: View, m: StateMap, p: Position, cs: seq<Commitment>)
    requires WellPlaced(view) && SliceAt(cs, p) && |p| < DEPTH
    requires Mirrors(view, m, p + [false]) && Mirrors(view, m, p + [true])
    ensures Correct(view, SplitAndRecurse(view, p, cs), ApplyWrites(m, LastWrites(cs)), p)
    decreases DEPTH - |p|, 0
  {
    var a, b := SplitParts(view, p, cs);
    hide *;
    UpdateIsCorrect(view, m, p + [false], a);
    UpdateIsCorrect(view, m, p + [true], b);
    HalvesAgree(m, a, b, p);
    HalvesJoin(view, p, UpdateSubtree(view, p + [false], a), UpdateSubtree(view, p + [true], b),
               ApplyWrites(m, LastWrites(a)), ApplyWrites(m, LastWrites(b)), ApplyWrites(m, LastWrites(cs)));
  }

  lemma HalvesJoin(view: View, p: Position, left: Update, right: Update, l: StateMap, r: StateMap, m: StateMap)
    requires |p| < DEPTH && UpdatePlaced(left, p + [false]) && UpdatePlaced(right, p + [true])
    requires Correct(view, left, l, p + [false]) && AgreeUnder(l, m, p + [false])
    requires Correct(view, right, r, p + [true]) && AgreeUnder(r, m, p + [true])
    ensures Correct(view, Joined(view, p, left, right), m, p)
  {
    hide *;
    CorrectIsLocal(view, left, l, m, p + [false]);
    CorrectIsLocal(view, right, r, m, p + [true]);
    JoinedIsCorrect(view, m, p, left, right);
  }

  /** The two slices a split recurses into. */
  lemma SplitParts(view: View, p: Position, cs: seq<Commitment>) returns (a: seq<Commitment>, b: seq<Commitment>)
    requires WellPlaced(view) && SliceAt(cs, p) && |p| < DEPTH
    ensures a + b == cs && SliceAt(a, p + [false]) && SliceAt(b, p + [true])
    ensures SplitAndRecurse(view, p, cs)
            == Joined(view, p, UpdateSubtree(view, p + [false], a), UpdateSubtree(view, p + [true], b))
  {
    HalvesAreSlices(cs, p);
    var mid := SplitPoint(KeysOf(cs), |p|);
    a, b := cs[..mid], cs[mid..];
  }

  /** Reading nothing below `p` is mirroring the empty map at both children. */
  lemma BareMirrorsNothing(view: View, p: Position, b: bool)
    requires |p| < DEPTH && BareBelow(view, p)
    ensures Mirrors(view, map[], p + [b])
  {
    ParentOfChild(p, b);
    forall q: Position | Below(p + [b], q) ensures Read(view, q) == None && !Many(map[], Parent(q)) {
      BelowChildIsBelow(p, b, q);
    }
  }

  lemma {:induction false} ResolveIsCorrect(view: View, p: Position, cs: seq<Commitment>)
    requires WellPlaced(view) && SliceAt(cs, p) && BareBelow(view, p)
    ensures Correct(view, ResolveLeaves(view, p, cs), ApplyWrites(map[], LastWrites(cs)), p)
    decreases DEPTH - |p|, 1
  {
    var first := NextLive(cs, 0);
    if first == |cs| || NextLive(cs, first + 1) == |cs| {
      FewLive(cs, p);
      NothingBelow(view, ApplyWrites(map[], LastWrites(cs)), p);
    } else {
      TwoEntriesAreAboveTheBottom(cs, p, first, NextLive(cs, first + 1));
      BareMirrorsNothing(view, p, false);
      BareMirrorsNothing(view, p, true);
      SplitIsCorrect(view, map[], p, cs);
    }
  }

  /** A slice with at most one live entry resolves to that entry's leaf, or to nothing. */
  lemma FewLive(cs: seq<Commitment>, p: Position)
    requires SliceAt(cs, p)
    requires var first := NextLive(cs, 0); first == |cs| || NextLive(cs, first + 1) == |cs|
    ensures var m, first := ApplyWrites(map[], LastWrites(cs)), NextLive(cs, 0);
            && !Many(m, p)
            && Canon(m, p) == if first == |cs| then Nil else Tip(cs[first].key, cs[first].value)
  {
    hide LastWrites;
    hide SliceAt;
    var m, first := ApplyWrites(map[], LastWrites(cs)), NextLive(cs, 0);
    forall k | k in m ensures first < |cs| && k == cs[first].key {
      assert k in LastWrites(cs) && LastWrites(cs)[k] != Zero;
      LiveWriteIsListed(cs, k);
    }
    if first < |cs| {
      SliceWrites(cs, p, first);
      LoneState(m, p, cs[first].key, cs[first].value);
    }
  }

  /** A key whose last write is live is that of some live commitment. */
  lemma LiveWriteIsListed(cs: seq<Commitment>, k: ResourceId)
    requires k in LastWrites(cs) && LastWrites(cs)[k] != Zero
    ensures exists i :: 0 <= i < |cs| && cs[i].key == k && cs[i].value != Zero
  {
    LastWritesKeys(cs, k);
    var i :| 0 <= i < |cs| && cs[i] == Commitment(k, LastWrites(cs)[k]);
    assert cs[i].key == k && cs[i].value != Zero;
  }

  lemma LoneState(m: StateMap, p: Position, k: ResourceId, v: Digest)
    requires k in m && m[k] == v && p <= k && forall j :: j in m ==> j == k
    ensures !Many(m, p) && Canon(m, p) == Tip(k, v)
  {
    assert !Vacant(m, p);
  }

  /** With at most one entry at `p`, writing nothing below it is right. */
  lemma NothingBelow(view: View, m: StateMap, p: Position)
    requires !Many(m, p)
    ensures WritesCanon(view, map[], m, p)
  {
    forall q: Position | Below(p, q) ensures !Many(m, Parent(q)) {
      BelowIsViaAChild(p, q);
      if Many(m, Parent(q)) {
        ManyIsMonotone(m, p, Parent(q));
      }
    }
  }

  lemma MirrorsShallow(view: View, m: StateMap, p: Position)
    requires Mirrors(view, m, p) && !Many(m, p)
    ensures BareBelow(view, p)
  {
    forall q: Position | Below(p, q) ensures Read(view, q) == None {
      BelowIsViaAChild(p, q);
      if Many(m, Parent(q)) {
        ManyIsMonotone(m, p, Parent(q));
      }
    }
  }

  lemma MirrorsChild(view: View, m: StateMap, p: Position, b: bool)
    requires |p| < DEPTH && Mirrors(view, m, p) && Many(m, p)
    ensures Mirrors(view, m, p + [b])
  {
    ParentOfChild(p, b);
    forall q: Position | Below(p + [b], q) ensures Below(p, q) {
      BelowChildIsBelow(p, b, q);
    }
  }

  /** From a clean view of `m`, updating a subtree yields the canonical subtree of the
      updated map: node returned, nodes written, and nothing else. */
  lemma {:induction false} UpdateIsCorrect(view: View, m: StateMap, p: Position, cs: seq<Commitment>)
    requires WellPlaced(view) && SliceAt(cs, p) && Mirrors(view, m, p)
    ensures Correct(view, UpdateSubtree(view, p, cs), ApplyWrites(m, LastWrites(cs)), p)
    decreases DEPTH - |p|, 3
  {
    hide *;
    if cs == [] {
      UntouchedIsCorrect(view, m, p);
    } else if Many(m, p) {
      ReadsFork(view, m, p, cs);
      SplitIsCorrect(view, m, p, cs);
    } else if Vacant(m, p) {
      ReadsNothing(view, m, p, cs);
      ResolveIsCorrect(view, p, cs);
      var w := LastWrites(cs);
      CorrectIsLocal(view, UpdateSubtree(view, p, cs), ApplyWrites(map[], w), ApplyWrites(m, w), p);
    } else {
      var k := ReadsTip(view, m, p, cs);
      AtLeafIsCorrect(view, m, p, cs, k);
    }
  }

  lemma UntouchedIsCorrect(view: View, m: StateMap, p: Position)
    requires WellPlaced(view) && SliceAt([], p) && Mirrors(view, m, p)
    ensures Correct(view, UpdateSubtree(view, p, []), ApplyWrites(m, LastWrites([])), p)
  {
    assert ApplyWrites(m, LastWrites([])) == m;
    assert view + map[] == view;
  }

  lemma ReadsFork(view: View, m: StateMap, p: Position, cs: seq<Commitment>)
    requires WellPlaced(view) && SliceAt(cs, p) && Mirrors(view, m, p) && Many(m, p) && cs != []
    ensures |p| < DEPTH && UpdateSubtree(view, p, cs) == SplitAndRecurse(view, p, cs)
    ensures Mirrors(view, m, p + [false]) && Mirrors(view, m, p + [true])
  {
    hide LastWrites;
    hide SliceAt;
    ManyIsAboveTheBottom(m, p);
    assert Canon(m, p).Fork?;
    assert UpdateSubtree(view, p, cs) == SplitAndRecurse(view, p, cs);
    hide *;
    MirrorsChild(view, m, p, false);
    MirrorsChild(view, m, p, true);
  }

  lemma ReadsNothing(view: View, m: StateMap, p: Position, cs: seq<Commitment>)
    requires WellPlaced(view) && SliceAt(cs, p) && Mirrors(view, m, p) && Vacant(m, p) && cs != []
    ensures BareBelow(view, p) && UpdateSubtree(view, p, cs) == ResolveLeaves(view, p, cs)
    ensures AgreeUnder(ApplyWrites(map[], LastWrites(cs)), ApplyWrites(m, LastWrites(cs)), p)
  {
    hide LastWrites;
    hide SliceAt;
    MirrorsShallow(view, m, p);
  }

  lemma ReadsTip(view: View, m: StateMap, p: Position, cs: seq<Commitment>) returns (k: ResourceId)
    requires WellPlaced(view) && SliceAt(cs, p) && Mirrors(view, m, p) && cs != []
    requires !Vacant(m, p) && !Many(m, p)
    ensures k in m && p <= k && BareBelow(view, p)
    ensures UpdateSubtree(view, p, cs) == UpdateAtLeaf(view, p, cs, k, m[k])
  {
    hide LastWrites;
    hide SliceAt;
    MirrorsShallow(view, m, p);
    k :| k in m && p <= k;
    assert Canon(m, p) == Tip(k, m[k]);
  }

  lemma {:induction false} AtLeafIsCorrect(view: View, m: StateMap, p: Position, cs: seq<Commitment>, k: ResourceId)
    requires WellPlaced(view) && SliceAt(cs, p) && BareBelow(view, p) && cs != []
    requires !Many(m, p) && k in m && p <= k
    ensures Correct(view, UpdateAtLeaf(view, p, cs, k, m[k]), ApplyWrites(m, LastWrites(cs)), p)
    decreases DEPTH - |p|, 2
  {
    var u, newMap := UpdateAtLeaf(view, p, cs, k, m[k]), ApplyWrites(m, LastWrites(cs));
    if |cs| == 1 && cs[0].key == k {
      ReplacedLeafIsCorrect(view, m, p, k, cs[0].value);
      assert cs[..0] == [] && LastWrites(cs) == map[k := cs[0].value];
    } else {
      MentionsIsExact(cs, k);
      LastWritesKeys(cs, k);
      var all := if Mentions(cs, k) then cs else Merged(cs, k, m[k]);
      if Mentions(cs, k) {
        LeafOverwritten(m, LastWrites(cs), p, k);
      } else {
        MergedIsASlice(cs, p, k, m[k]);
        MergedWrites(cs, k, m[k]);
        LeafCarried(m, LastWrites(cs), p, k);
      }
      ResolveIsCorrect(view, p, all);
      CorrectIsLocal(view, u, ApplyWrites(map[], LastWrites(all)), newMap, p);
    }
  }

  lemma LeafOverwritten(m: StateMap, w: map<ResourceId, Digest>, p: Position, k: ResourceId)
    requires !Many(m, p) && k in m && p <= k && k in w
    ensures AgreeUnder(ApplyWrites(map[], w), ApplyWrites(m, w), p)
  {
    assert forall j :: j in m && p <= j ==> j == k;
  }

  lemma LeafCarried(m: StateMap, w: map<ResourceId, Digest>, p: Position, k: ResourceId)
    requires !Many(m, p) && k in m && p <= k && k !in w
    ensures AgreeUnder(ApplyWrites(map[], w[k := m[k]]), ApplyWrites(m, w), p)
  {
    assert forall j :: j in m && p <= j ==> j == k;
  }

  lemma ReplacedLeafIsCorrect(view: View, m: StateMap, p: Position, k: ResourceId, v: Digest)
    requires !Many(m, p) && k in m && p <= k
    ensures var newMap := ApplyWrites(m, map[k := v]);
            && StoredNode(Canon(newMap, p)) == (if v == Zero then None else Some(LeafNode(k, v)))
            && WritesCanon(view, map[], newMap, p)
  {
    var newMap := ApplyWrites(m, map[k := v]);
    assert forall j :: j in newMap && p <= j ==> j == k;
    assert !Many(newMap, p);
    assert v != Zero ==> k in newMap;
    NothingBelow(view, newMap, p);
  }

  lemma MergedWrites(cs: seq<Commitment>, k: ResourceId, v: Digest)
    requires k !in LastWrites(cs)
    ensures LastWrites(Merged(cs, k, v)) == LastWrites(cs)[k := v]
  {
    var pos := InsertPoint(cs, k);
    assert cs[..pos] + cs[pos..] == cs;
    PutInside(cs[..pos], cs[pos..], Commitment(k, v));
  }

  lemma PutInside(a: seq<Commitment>, b: seq<Commitment>, c: Commitment)
    requires c.key !in LastWrites(a + b)
    ensures LastWrites(a + [c] + b) == LastWrites(a + b)[c.key := c.value]
  {
    LastWritesConcat(a, b);
    LastWritesConcat(a + [c], b);
    assert LastWrites(a + [c]) == LastWrites(a)[c.key := c.value] by { assert (a + [c])[..|a|] == a; }
    PutBetween(LastWrites(a), LastWrites(b), c.key, c.value);
  }

  lemma PutBetween(a: map<ResourceId, Digest>, b: map<ResourceId, Digest>, k: ResourceId, v: Digest)
    requires k !in a + b
    ensures a[k := v] + b == (a + b)[k := v]
  {
  }
}
