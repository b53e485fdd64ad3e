/** The chain of cancellation contexts: each rollback lowers the thresholds of the contexts it
    cuts and opens a new one. Contexts are cells; a parent reference is weak, so a context
    nobody holds any more may be gone. */
module Cancellation {
  import opened Numbers
  import opened Options

  datatype Context = Context(parent: Option<nat>, firstIndex: nat, threshold: nat)

  /** The lowest rollback target from the `n`-th rollback on. */
  function Lowest(targets: seq<nat>, n: nat): nat
    requires n <= |targets|
    decreases |targets| - n
  {
    if n == |targets| then U64_MAX else Min(targets[n], Lowest(targets, n + 1))
  }

  lemma {:induction false} LowestOfMore(targets: seq<nat>, n: nat, x: nat)
    requires n <= |targets| && x <= U64_MAX
    ensures Lowest(targets + [x], n) == Min(x, Lowest(targets, n))
    decreases |targets| - n
  {
    if n < |targets| {
      LowestOfMore(targets, n + 1, x);
      assert (targets + [x])[n] == targets[n];
    }
  }

  /** A target below `index` since the `n`-th rollback is one below or at the lowest. */
  lemma {:induction false} LowestDecides(targets: seq<nat>, n: nat, index: nat)
    requires n <= |targets| && index <= U64_MAX
    ensures index > Lowest(targets, n) <==> exists i :: n <= i < |targets| && targets[i] < index
    decreases |targets| - n
  {
    if n < |targets| {
      LowestDecides(targets, n + 1, index);
      if index > Lowest(targets, n + 1) {
        var i :| n + 1 <= i < |targets| && targets[i] < index;
      }
    }
  }

  // ---- The chain ----

  /** `chain` is the current context followed by its parents; a parent's threshold is where
      its child begins. */
  ghost predicate Linked(cs: seq<Context>, chain: seq<nat>) {
    && chain != [] && (forall j :: 0 <= j < |chain| ==> chain[j] < |cs|)
    && (forall i, j :: 0 <= i < j < |chain| ==> chain[i] > chain[j])
    && cs[chain[0]].threshold == U64_MAX && cs[chain[|chain| - 1]].parent == None
    && (forall i, j :: 0 <= i && j == i + 1 < |chain| ==> LinkedTo(cs, chain[i], chain[j]))
  }

  ghost predicate Parents(cs: seq<Context>, chain: seq<nat>) {
    && chain != [] && (forall j :: 0 <= j < |chain| ==> chain[j] < |cs|)
    && (forall i, j :: 0 <= i && j == i + 1 < |chain| ==> cs[chain[i]].parent == Some(chain[j]))
    && cs[chain[|chain| - 1]].parent == None
  }

  ghost predicate LinkedTo(cs: seq<Context>, child: nat, parent: nat)
    requires child < |cs| && parent < |cs|
  {
    && cs[child].parent == Some(parent)
    && cs[parent].firstIndex <= cs[child].firstIndex && cs[parent].threshold == cs[child].firstIndex
  }

  /** A context on the chain has the lowest target since its creation as its threshold; one
      cut off the chain cancels everything it ever held. One that a rollback could not reach
      is `blind`: it cancels nothing that should live, but misses rollbacks. */
  ghost predicate Exact(cs: seq<Context>, chain: seq<nat>, targets: seq<nat>, born: seq<nat>, blind: set<nat>) {
    && |born| == |cs| && (forall k :: k in blind ==> k < |cs|)
    && forall k :: 0 <= k < |cs| ==>
         && born[k] <= |targets| && Lowest(targets, born[k]) <= cs[k].threshold
         && (k in chain ==> k !in blind && cs[k].threshold == Lowest(targets, born[k]))
         && (k !in chain && k !in blind ==> cs[k].threshold < cs[k].firstIndex)
  }

  /** How far up the walk for a rollback to `index` goes: to the first context that contains
      it, or to the last one that can still be reached. */
  function Stop(cs: seq<Context>, chain: seq<nat>, alive: set<nat>, j: nat, index: nat): (m: nat)
    requires j < |chain| && forall j :: 0 <= j < |chain| ==> chain[j] < |cs|
    ensures j <= m < |chain| && forall i :: j <= i < m ==> index < cs[chain[i]].firstIndex
    decreases |chain| - j
  {
    if index < cs[chain[j]].firstIndex && j + 1 < |chain| && chain[j + 1] in alive
    then Stop(cs, chain, alive, j + 1, index)
    else j
  }

  /** Context `k` after a walk over `visited`. */
  function Lowered(c: Context, k: nat, visited: seq<nat>, index: nat): Context {
    if k in visited then c.(threshold := index) else c
  }

  /** The walk lowered exactly the contexts `visited`. */
  ghost predicate LoweredTo(cs: seq<Context>, after: seq<Context>, visited: seq<nat>, index: nat) {
    |after| == |cs| && forall k :: 0 <= k < |cs| ==> after[k] == Lowered(cs[k], k, visited, index)
  }

  /** The chain after a rollback. */
  function Rechained(cs: seq<Context>, chain: seq<nat>, m: nat, index: nat): seq<nat>
    requires m < |chain| && chain[m] < |cs|
  {
    [|cs|] + if index >= cs[chain[m]].firstIndex then chain[m..] else []
  }

  /** The contexts behind the end of a walk that did not find the one it was looking for. */
  ghost function Unreached(cs: seq<Context>, chain: seq<nat>, m: nat, index: nat): set<nat>
    requires m < |chain| && chain[m] < |cs|
  {
    if index >= cs[chain[m]].firstIndex then {} else set j | m < j < |chain| :: chain[j]
  }

  function Everyone(chain: seq<nat>): set<nat> {
    set k | k in chain
  }

  /** Where the walk ends if every parent is still held. */
  function FullStop(cs: seq<Context>, chain: seq<nat>, index: nat): (m: nat)
    requires chain != [] && forall j :: 0 <= j < |chain| ==> chain[j] < |cs|
    ensures m < |chain| && forall i :: 0 <= i < m ==> index < cs[chain[i]].firstIndex
  {
    Stop(cs, chain, Everyone(chain), 0, index)
  }

  /** Every parent the walk has to reach is still held. */
  ghost predicate Reachable(cs: seq<Context>, chain: seq<nat>, alive: set<nat>, index: nat)
    requires chain != [] && forall j :: 0 <= j < |chain| ==> chain[j] < |cs|
  {
    forall i :: 0 < i <= FullStop(cs, chain, index) ==> chain[i] in alive
  }

  class CancellationContexts {
    var contexts: seq<Context>
    var current: nat
    /** Contexts that a batch, or the scheduler, still holds. */
    var alive: set<nat>
    ghost var chain: seq<nat>
    /** All rollback targets so far, and per context how many there were at its creation. */
    ghost var targets: seq<nat>
    ghost var born: seq<nat>
    /** Contexts that some rollback could not reach because one in between was dropped. */
    ghost var blind: set<nat>

    ghost predicate Valid()
      reads this
    {
      && Linked(contexts, chain) && current == chain[0] && current in alive
      && Exact(contexts, chain, targets, born, blind)
    }

    constructor (firstIndex: nat)
      ensures Valid() && contexts == [Context(None, firstIndex, U64_MAX)] && targets == [] && born == [0]
      ensures chain == [0] && alive == {0} && blind == {}
    {
      contexts, current, alive := [Context(None, firstIndex, U64_MAX)], 0, {0};
      chain, targets, born, blind := [0], [], [0], {};
    }

    /** Whether a batch created under context `k` is canceled. */
    method Canceled(k: nat, index: nat) returns (r: bool)
      requires Valid() && k < |contexts| && contexts[k].firstIndex < index <= U64_MAX
      ensures r == (index > contexts[k].threshold)
      ensures r ==> exists i :: born[k] <= i < |targets| && targets[i] < index
      ensures k !in blind ==> (r <==> exists i :: born[k] <= i < |targets| && targets[i] < index)
    {
      r := index > contexts[k].threshold;
      LowestDecides(targets, born[k], index);
    }

    /** A context nobody holds any more is dropped. */
    method Drop(k: nat)
      requires Valid() && k != current
      modifies this`alive
      ensures Valid() && alive == old(alive) - {k}
    {
      alive := alive - {k};
    }

    /** Cancels everything above `index` and opens a new context there. Contexts go blind
        exactly if one up to the context that contains `index` has been dropped. */
    method Rollback(index: nat)
      requires Valid() && index < U64_MAX
      modifies this
      ensures Valid() && targets == old(targets) + [index] && alive == old(alive) + {current}
      ensures current == |old(contexts)| && |contexts| == |old(contexts)| + 1 && born == old(born) + [|targets|]
      ensures forall k :: 0 <= k < |old(contexts)| ==>
                contexts[k].firstIndex == old(contexts)[k].firstIndex &&
                contexts[k].threshold <= old(contexts)[k].threshold
      ensures var m := Stop(old(contexts), old(chain), old(alive), 0, index);
              && chain == Rechained(old(contexts), old(chain), m, index)
              && blind == old(blind) + Unreached(old(contexts), old(chain), m, index)
              && LoweredTo(old(contexts), contexts[..|old(contexts)|], old(chain)[..m + 1], index)
              && contexts[current] ==
                 Context(if index >= old(contexts)[old(chain)[m]].firstIndex then Some(old(chain)[m]) else None,
                         index, U64_MAX)
      ensures blind == old(blind) <==> Reachable(old(contexts), old(chain), old(alive), index)
    {
      hide Linked;
      hide Exact;
      hide Stop;
      hide LoweredTo;
      hide Walked;
      hide Lowest;
      hide Parents;
      hide Unreached;
      hide Reachable;
      LinkedParents(contexts, chain);
      ghost var before, m := contexts, Stop(contexts, chain, alive, 0, index);
      var parent := CanceledParent(current, index, 0);
      WalkEnds(before, contexts, chain, alive, index);
      WalkLength(before, contexts, chain, m, index);
      RollbackIsLinked(before, contexts, chain, m, index);
      RollbackIsExact(before, contexts, chain, targets, born, blind, m, index);
      BlindExactlyWhenUnreachable(before, chain, targets, born, blind, alive, index);
      WalkOnlyLowers(before, contexts, chain, m, index);
      WalkVisited(before, contexts, chain, m, index);
      contexts := contexts + [Context(parent, index, U64_MAX)];
      current := |contexts| - 1;
      alive := alive + {current};
      blind := blind + Unreached(before, chain, m, index);
      chain := Rechained(before, chain, m, index);
      targets := targets + [index];
      born := born + [|targets|];
      assert contexts[..|before|] == contexts[..|contexts| - 1];
    }

    /** Lowers context `i` and its parents down to the one that contains `index`, which it
        returns. */
    method CanceledParent(i: nat, index: nat, ghost j: nat) returns (parent: Option<nat>)
      requires j < |chain| && chain[j] == i && forall k :: 0 <= k < |chain| ==> chain[k] < |contexts|
      requires forall a, b :: 0 <= a < b < |chain| ==> chain[a] > chain[b]
      requires Parents(contexts, chain)
      modifies this`contexts
      ensures var m := Stop(old(contexts), chain, alive, j, index);
              && LoweredTo(old(contexts), contexts, chain[j..m + 1], index)
              && parent == if index >= old(contexts)[chain[m]].firstIndex then Some(chain[m]) else None
      decreases i
    {
      hide *;
      ParentOf(contexts, chain, j);
      contexts := contexts[i := contexts[i].(threshold := index)];
      WalkStops(old(contexts), contexts, chain, alive, j, index);
      if index >= contexts[i].firstIndex {
        return Some(i);
      }
      var p := contexts[i].parent;
      if p.None? || p.value !in alive {
        return None;
      }
      ghost var lowered := contexts;
      WalkOn(old(contexts), lowered, chain, alive, j, index);
      parent := CanceledParent(p.value, index, j + 1);
      WalkedOn(old(contexts), lowered, contexts, chain, alive, j, index);
    }
  }

  lemma LinkedParents(cs: seq<Context>, chain: seq<nat>)
    requires Linked(cs, chain)
    ensures Parents(cs, chain) && chain != [] && forall j :: 0 <= j < |chain| ==> chain[j] < |cs|
    ensures forall i, j :: 0 <= i < j < |chain| ==> chain[i] > chain[j]
  {
    forall i, j | 0 <= i && j == i + 1 < |chain| ensures cs[chain[i]].parent == Some(chain[j]) {
      assert LinkedTo(cs, chain[i], chain[j]);
    }
  }

  lemma ParentOf(cs: seq<Context>, chain: seq<nat>, j: nat)
    requires Parents(cs, chain) && j < |chain|
    ensures chain[j] < |cs| && cs[chain[j]].parent == if j + 1 < |chain| then Some(chain[j + 1]) else None
    ensures j + 1 < |chain| ==> chain[j + 1] < |cs|
  {
    if j + 1 < |chain| {
      var i := j + 1;
      assert cs[chain[j]].parent == Some(chain[i]);
    }
  }

  lemma WalkStops(cs: seq<Context>, lowered: seq<Context>, chain: seq<nat>, alive: set<nat>, j: nat, index: nat)
    requires Parents(cs, chain) && j < |chain| && lowered == cs[chain[j] := cs[chain[j]].(threshold := index)]
    ensures index >= cs[chain[j]].firstIndex || j + 1 == |chain| || chain[j + 1] !in alive ==>
              Stop(cs, chain, alive, j, index) == j && LoweredTo(cs, lowered, chain[j..j + 1], index)
    ensures lowered[chain[j]].parent == cs[chain[j]].parent && lowered[chain[j]].firstIndex == cs[chain[j]].firstIndex
  {
    assert chain[j..j + 1] == [chain[j]];
  }

  /** The walk gets as far as it should exactly when no parent it needs has been dropped. */
  lemma StopsInFullExactlyWhenReachable(cs: seq<Context>, chain: seq<nat>, alive: set<nat>, index: nat)
    requires chain != [] && forall j :: 0 <= j < |chain| ==> chain[j] < |cs|
    ensures Stop(cs, chain, alive, 0, index) == FullStop(cs, chain, index) <==> Reachable(cs, chain, alive, index)
    ensures index >= cs[chain[FullStop(cs, chain, index)]].firstIndex || FullStop(cs, chain, index) == |chain| - 1
  {
    StopsBeforeTheDropped(cs, chain, alive, 0, index);
    FullStopIsFull(cs, chain, 0, index);
  }

  lemma {:induction false} StopsBeforeTheDropped(cs: seq<Context>, chain: seq<nat>, alive: set<nat>, j: nat, index: nat)
    requires j < |chain| && forall j :: 0 <= j < |chain| ==> chain[j] < |cs|
    ensures var full := Stop(cs, chain, Everyone(chain), j, index);
            && Stop(cs, chain, alive, j, index) <= full
            && (Stop(cs, chain, alive, j, index) == full <==> forall i :: j < i <= full ==> chain[i] in alive)
    decreases |chain| - j
  {
    if index < cs[chain[j]].firstIndex && j + 1 < |chain| {
      assert chain[j + 1] in Everyone(chain);
      StopsBeforeTheDropped(cs, chain, alive, j + 1, index);
    }
  }

  lemma {:induction false} FullStopIsFull(cs: seq<Context>, chain: seq<nat>, j: nat, index: nat)
    requires j < |chain| && forall j :: 0 <= j < |chain| ==> chain[j] < |cs|
    ensures var m := Stop(cs, chain, Everyone(chain), j, index);
            index >= cs[chain[m]].firstIndex || m == |chain| - 1
    decreases |chain| - j
  {
    if index < cs[chain[j]].firstIndex && j + 1 < |chain| {
      assert chain[j + 1] in Everyone(chain);
      FullStopIsFull(cs, chain, j + 1, index);
    }
  }

  /** A dropped context shields the ones behind it: with the middle one gone, batch 8 of the
      first context is not canceled by the rollback to 5. */
  method DroppedContextShieldsItsParents() returns (before: bool, after: bool)
    ensures !before && !after
  {
    hide Linked;
    hide Exact;
    hide Lowest;
    hide Reachable;
    hide Stop;
    hide LoweredTo;
    hide Rechained;
    hide Unreached;
    var c := new CancellationContexts(0);
    OneContext();
    c.Rollback(10);
    TwoContexts(c.contexts);
    c.Rollback(20);
    ThreeContexts(c.contexts, {0, 2});
    before := c.Canceled(0, 8);
    c.Drop(1);
    assert c.alive == {0, 2} && c.chain == [2, 1, 0];
    ghost var were := c.contexts;
    c.Rollback(5);
    FirstStays(c.contexts[..|were|]);
    after := c.Canceled(0, 8);
  }

  lemma OneContext()
    ensures var cs := [Context(None, 0, U64_MAX)]; Stop(cs, [0], {0}, 0, 10) == 0 && Rechained(cs, [0], 0, 10) == [1, 0]
  {
  }

  lemma TwoContexts(cs: seq<Context>)
    requires |cs| == 2 && LoweredTo([Context(None, 0, U64_MAX)], cs[..1], [0][..1], 10) &&
             cs[1] == Context(Some(0), 10, U64_MAX)
    ensures cs == [Context(None, 0, 10), Context(Some(0), 10, U64_MAX)]
    ensures Stop(cs, [1, 0], {0, 1}, 0, 20) == 0 && Rechained(cs, [1, 0], 0, 20) == [2, 1, 0]
  {
    assert [0][..1] == [0] && cs[..1][0] == cs[0];
  }

  lemma ThreeContexts(cs: seq<Context>, alive: set<nat>)
    requires |cs| == 3 && cs[2] == Context(Some(1), 20, U64_MAX) && alive == {0, 2}
    requires LoweredTo([Context(None, 0, 10), Context(Some(0), 10, U64_MAX)], cs[..2], [1, 0][..1], 20)
    ensures cs == [Context(None, 0, 10), Context(Some(0), 10, 20), Context(Some(1), 20, U64_MAX)]
    ensures Stop(cs, [2, 1, 0], alive, 0, 5) == 0
  {
    assert [1, 0][..1] == [1] && cs[..2][0] == cs[0] && cs[..2][1] == cs[1];
  }

  lemma FirstStays(cs: seq<Context>)
    requires LoweredTo([Context(None, 0, 10), Context(Some(0), 10, 20), Context(Some(1), 20, U64_MAX)],
                       cs, [2, 1, 0][..1], 5)
    ensures |cs| == 3 && cs[0] == Context(None, 0, 10)
  {
    assert [2, 1, 0][..1] == [2];
  }

  lemma WalkVisited(cs: seq<Context>, after: seq<Context>, chain: seq<nat>, m: nat, index: nat)
    requires Walked(cs, after, chain, m, index)
    ensures LoweredTo(cs, after, chain[..m + 1], index)
  {
    hide LoweredTo;
  }

  /** Something goes unreached exactly if a parent the walk needs has been dropped. */
  lemma BlindExactlyWhenUnreachable(cs: seq<Context>, chain: seq<nat>, targets: seq<nat>, born: seq<nat>,
                                    blind: set<nat>, alive: set<nat>, index: nat)
    requires chain != [] && (forall j :: 0 <= j < |chain| ==> chain[j] < |cs|) && Exact(cs, chain, targets, born, blind)
    ensures var m := Stop(cs, chain, alive, 0, index);
            blind + Unreached(cs, chain, m, index) == blind <==> Reachable(cs, chain, alive, index)
  {
    hide Lowest;
    hide Reachable;
    var m, full := Stop(cs, chain, alive, 0, index), FullStop(cs, chain, index);
    StopsInFullExactlyWhenReachable(cs, chain, alive, index);
    StopsBeforeTheDropped(cs, chain, alive, 0, index);
    if m < full {
      assert index < cs[chain[m]].firstIndex;
      assert chain[m + 1] in Unreached(cs, chain, m, index) && chain[m + 1] !in blind;
    }
  }

  lemma WalkEnds(cs: seq<Context>, after: seq<Context>, chain: seq<nat>, alive: set<nat>, index: nat)
    requires Linked(cs, chain) && index < U64_MAX && (forall j :: 0 <= j < |chain| ==> chain[j] < |cs|)
    requires var m := Stop(cs, chain, alive, 0, index); LoweredTo(cs, after, chain[0..m + 1], index)
    ensures Walked(cs, after, chain, Stop(cs, chain, alive, 0, index), index)
  {
    hide Linked;
    hide LoweredTo;
    var m := Stop(cs, chain, alive, 0, index);
    assert chain[0..m + 1] == chain[..m + 1];
  }

  lemma WalkOnlyLowers(cs: seq<Context>, after: seq<Context>, chain: seq<nat>, m: nat, index: nat)
    requires Walked(cs, after, chain, m, index)
    ensures |after| == |cs| && forall k :: 0 <= k < |cs| ==>
              after[k].firstIndex == cs[k].firstIndex && after[k].threshold <= cs[k].threshold
  {
    hide Walked;
    WalkLength(cs, after, chain, m, index);
    forall k: nat | k < |cs|
      ensures after[k].firstIndex == cs[k].firstIndex && after[k].threshold <= cs[k].threshold
    {
      WalkLowers(cs, after, chain, m, index, k);
    }
  }

  lemma WalkOn(cs: seq<Context>, lowered: seq<Context>, chain: seq<nat>, alive: set<nat>, j: nat, index: nat)
    requires Parents(cs, chain) && j + 1 < |chain| && chain[j + 1] in alive
    requires index < cs[chain[j]].firstIndex && lowered == cs[chain[j] := cs[chain[j]].(threshold := index)]
    ensures Parents(lowered, chain)
    ensures Stop(cs, chain, alive, j, index) == Stop(lowered, chain, alive, j + 1, index)
  {
    SameStop(cs, lowered, chain, alive, j + 1, index);
  }

  lemma WalkedOn(cs: seq<Context>, lowered: seq<Context>, after: seq<Context>, chain: seq<nat>, alive: set<nat>,
                 j: nat, index: nat)
    requires Parents(cs, chain) && j + 1 < |chain|
    requires lowered == cs[chain[j] := cs[chain[j]].(threshold := index)]
    requires var m := Stop(lowered, chain, alive, j + 1, index);
             LoweredTo(lowered, after, chain[j + 1..m + 1], index)
    ensures var m := Stop(lowered, chain, alive, j + 1, index);
            LoweredTo(cs, after, chain[j..m + 1], index)
  {
    var m := Stop(lowered, chain, alive, j + 1, index);
    assert chain[j..m + 1] == [chain[j]] + chain[j + 1..m + 1];
  }

  lemma {:induction false} SameStop(a: seq<Context>, b: seq<Context>, chain: seq<nat>, alive: set<nat>, j: nat,
                                    index: nat)
    requires j < |chain| && |a| == |b| && forall j :: 0 <= j < |chain| ==> chain[j] < |a|
    requires forall k :: 0 <= k < |a| ==> a[k].firstIndex == b[k].firstIndex
    ensures Stop(a, chain, alive, j, index) == Stop(b, chain, alive, j, index)
    decreases |chain| - j
  {
    if index < a[chain[j]].firstIndex && j + 1 < |chain| && chain[j + 1] in alive {
      SameStop(a, b, chain, alive, j + 1, index);
    }
  }

  /** The first indices descend along the chain. */
  lemma {:induction false} FirstsDescend(cs: seq<Context>, chain: seq<nat>, i: nat, j: nat)
    requires Linked(cs, chain) && i <= j < |chain|
    ensures cs[chain[j]].firstIndex <= cs[chain[i]].firstIndex
    decreases j
  {
    if i < j {
      FirstsDescend(cs, chain, i, j - 1);
      assert LinkedTo(cs, chain[j - 1], chain[j]);
    }
  }

  /** The state of a completed walk. */
  ghost predicate Walked(cs: seq<Context>, after: seq<Context>, chain: seq<nat>, m: nat, index: nat) {
    && m < |chain| && Linked(cs, chain) && LoweredTo(cs, after, chain[..m + 1], index) && index < U64_MAX
    && (forall i :: 0 <= i < m ==> index < cs[chain[i]].firstIndex)
  }

  /** Contexts at and behind the end of the walk. */
  lemma BehindWalk(cs: seq<Context>, after: seq<Context>, chain: seq<nat>, m: nat, index: nat, i: nat)
    requires Walked(cs, after, chain, m, index) && m <= i < |chain|
    ensures chain[i] < |after| == |cs|
    ensures after[chain[i]] == if i == m then cs[chain[i]].(threshold := index) else cs[chain[i]]
  {
    assert chain[..m + 1][m] == chain[m];
    assert i > m ==> chain[i] !in chain[..m + 1];
  }

  lemma RollbackIsLinked(cs: seq<Context>, after: seq<Context>, chain: seq<nat>, m: nat, index: nat)
    requires Walked(cs, after, chain, m, index)
    ensures var found := index >= cs[chain[m]].firstIndex;
            Linked(after + [Context(if found then Some(chain[m]) else None, index, U64_MAX)],
                   Rechained(cs, chain, m, index))
  {
    if index >= cs[chain[m]].firstIndex {
      FoundIsLinked(cs, after, chain, m, index);
    } else {
      assert Rechained(cs, chain, m, index) == [|cs|];
    }
  }

  /** Neighbours on the new chain: the new context on the one the walk found, and the old ones. */
  lemma FoundLink(cs: seq<Context>, after: seq<Context>, chain: seq<nat>, m: nat, index: nat, i: nat)
    requires Walked(cs, after, chain, m, index) && index >= cs[chain[m]].firstIndex && m + i < |chain|
    ensures var next := after + [Context(Some(chain[m]), index, U64_MAX)];
            var child := if i == 0 then |cs| else chain[m + i - 1];
            |next| == |cs| + 1 && child < |next| && chain[m + i] < |cs| && LinkedTo(next, child, chain[m + i])
  {
    hide LoweredTo;
    WalkLength(cs, after, chain, m, index);
    BehindWalk(cs, after, chain, m, index, m + i);
    if i > 0 {
      BehindWalk(cs, after, chain, m, index, m + i - 1);
      assert LinkedTo(cs, chain[m + i - 1], chain[m + i]);
    }
  }

  lemma FoundIsLinked(cs: seq<Context>, after: seq<Context>, chain: seq<nat>, m: nat, index: nat)
    requires Walked(cs, after, chain, m, index) && index >= cs[chain[m]].firstIndex
    ensures Linked(after + [Context(Some(chain[m]), index, U64_MAX)], [|cs|] + chain[m..])
  {
    hide LoweredTo;
    hide LinkedTo;
    var next, links := after + [Context(Some(chain[m]), index, U64_MAX)], [|cs|] + chain[m..];
    WalkLength(cs, after, chain, m, index);
    forall i, j | 0 <= i && j == i + 1 < |links|
      ensures links[i] < |next| && links[j] < |next| && LinkedTo(next, links[i], links[j])
    {
      FoundLink(cs, after, chain, m, index, i);
    }
    BehindWalk(cs, after, chain, m, index, |chain| - 1);
  }

  lemma ThresholdOnChain(cs: seq<Context>, chain: seq<nat>, j: nat)
    requires Linked(cs, chain) && j < |chain|
    ensures cs[chain[j]].threshold == if j == 0 then U64_MAX else cs[chain[j - 1]].firstIndex
  {
    if j > 0 {
      assert LinkedTo(cs, chain[j - 1], chain[j]);
    }
  }

  /** Where context `k` stands on the chain. */
  lemma Position(chain: seq<nat>, k: nat) returns (j: nat)
    requires k in chain
    ensures j < |chain| && chain[j] == k
  {
    j :| 0 <= j < |chain| && chain[j] == k;
  }

  /** A context the walk visited. */
  lemma VisitedIsLowered(cs: seq<Context>, after: seq<Context>, chain: seq<nat>, m: nat, index: nat, j: nat)
    requires Walked(cs, after, chain, m, index) && j <= m
    ensures var k, links := chain[j], Rechained(cs, chain, m, index);
            && k < |cs| == |after| && after[k] == cs[k].(threshold := index)
            && index <= cs[k].threshold && (k in links <==> index >= cs[k].firstIndex)
            && k !in Unreached(cs, chain, m, index)
  {
    var k, links := chain[j], Rechained(cs, chain, m, index);
    ThresholdOnChain(cs, chain, j);
    assert chain[..m + 1][j] == k;
    assert j < m ==> k !in chain[m..];
    assert j == m && index >= cs[k].firstIndex ==> k == links[1];
  }

  /** A context behind the end of the walk. */
  lemma UnvisitedStays(cs: seq<Context>, after: seq<Context>, chain: seq<nat>, m: nat, index: nat, j: nat)
    requires Walked(cs, after, chain, m, index) && m < j < |chain|
    ensures var k, links := chain[j], Rechained(cs, chain, m, index);
            && k < |cs| == |after| && after[k] == cs[k]
            && (k in links ==> cs[k].threshold <= index) && (k in links <==> k !in Unreached(cs, chain, m, index))
  {
    var k, links := chain[j], Rechained(cs, chain, m, index);
    BehindWalk(cs, after, chain, m, index, j);
    ThresholdOnChain(cs, chain, j);
    FirstsDescend(cs, chain, m, j - 1);
    assert index >= cs[chain[m]].firstIndex ==> k == links[j - m + 1];
  }

  lemma WalkLowers(cs: seq<Context>, after: seq<Context>, chain: seq<nat>, m: nat, index: nat, k: nat)
    requires Walked(cs, after, chain, m, index) && k < |cs| == |after|
    ensures after[k].firstIndex == cs[k].firstIndex && after[k].threshold <= cs[k].threshold
    ensures k !in chain ==> after[k] == cs[k]
    ensures k in chain ==>
              var links := Rechained(cs, chain, m, index);
              && (k in links ==> after[k].threshold == Min(index, cs[k].threshold))
              && (k !in links && k !in Unreached(cs, chain, m, index) ==>
                    after[k].threshold == index < cs[k].firstIndex)
              && (k in Unreached(cs, chain, m, index) ==> k !in links && after[k] == cs[k])
  {
    hide Rechained;
    hide Unreached;
    hide LoweredTo;
    hide Linked;
    if k in chain {
      var j := Position(chain, k);
      if j <= m {
        VisitedIsLowered(cs, after, chain, m, index, j);
      } else {
        UnvisitedStays(cs, after, chain, m, index, j);
      }
    } else {
      OffChainStays(cs, after, chain, m, index, k);
    }
  }

  lemma OffChainStays(cs: seq<Context>, after: seq<Context>, chain: seq<nat>, m: nat, index: nat, k: nat)
    requires Walked(cs, after, chain, m, index) && k < |cs| == |after| && k !in chain
    ensures after[k] == cs[k]
  {
    assert k !in chain[..m + 1];
  }

  lemma RollbackIsExact(cs: seq<Context>, after: seq<Context>, chain: seq<nat>, targets: seq<nat>, born: seq<nat>,
                        blind: set<nat>, m: nat, index: nat)
    requires Walked(cs, after, chain, m, index) && Exact(cs, chain, targets, born, blind)
    ensures var found := index >= cs[chain[m]].firstIndex;
            Exact(after + [Context(if found then Some(chain[m]) else None, index, U64_MAX)],
                  Rechained(cs, chain, m, index), targets + [index], born + [|targets| + 1],
                  blind + Unreached(cs, chain, m, index))
  {
    hide Linked;
    hide LoweredTo;
    hide Lowest;
    hide Rechained;
    WalkLength(cs, after, chain, m, index);
    var found := index >= cs[chain[m]].firstIndex;
    var next := after + [Context(if found then Some(chain[m]) else None, index, U64_MAX)];
    RechainedShape(cs, chain, m, index);
    var links, ts, bs := Rechained(cs, chain, m, index), targets + [index], born + [|targets| + 1];
    var unseen := blind + Unreached(cs, chain, m, index);
    UnreachedIsOld(cs, chain, m, index);
    forall k | 0 <= k < |next|
      ensures && bs[k] <= |ts| && Lowest(ts, bs[k]) <= next[k].threshold
              && (k in links ==> k !in unseen && next[k].threshold == Lowest(ts, bs[k]))
              && (k !in links && k !in unseen ==> next[k].threshold < next[k].firstIndex)
    {
      if k < |cs| {
        LowestOfMore(targets, born[k], index);
        WalkLowers(cs, after, chain, m, index, k);
      } else {
        LowestOfNone(ts);
      }
    }
  }

  lemma UnreachedIsOld(cs: seq<Context>, chain: seq<nat>, m: nat, index: nat)
    requires Linked(cs, chain) && m < |chain|
    ensures forall k :: k in Unreached(cs, chain, m, index) ==> k < |cs|
  {
  }

  lemma LowestOfNone(targets: seq<nat>)
    ensures Lowest(targets, |targets|) == U64_MAX
  {
  }

  lemma WalkLength(cs: seq<Context>, after: seq<Context>, chain: seq<nat>, m: nat, index: nat)
    requires Walked(cs, after, chain, m, index)
    ensures |after| == |cs| && chain[m] < |cs|
  {
  }

  lemma RechainedShape(cs: seq<Context>, chain: seq<nat>, m: nat, index: nat)
    requires m < |chain| && chain[m] < |cs|
    ensures |cs| in Rechained(cs, chain, m, index)
    ensures forall k :: k in Rechained(cs, chain, m, index) ==> k == |cs| || k in chain
  {
  }
}
