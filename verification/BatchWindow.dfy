/** Batches as the aggregate prover sees them: filtered by rollbacks and by what has left. */
module BatchWindow {
  datatype Batch = Batch(index: nat, block: nat, hasTxs: bool)

  ghost predicate Ascending(s: seq<Batch>) {
    forall i, j :: 0 <= i < j < |s| ==> s[i].index < s[j].index
  }

  /** The batches of `s` that have not left. */
  ghost function Kept(s: seq<Batch>, gone: set<nat>): seq<Batch> {
    if s == [] then []
    else Kept(s[..|s| - 1], gone) + if s[|s| - 1].index in gone then [] else [s[|s| - 1]]
  }

  /** The batches of `s` that a rollback to `target` leaves. */
  function UpTo(s: seq<Batch>, target: nat): (r: seq<Batch>)
    ensures forall b :: b in r <==> b in s && b.index <= target
  {
    if s == [] then []
    else UpTo(s[..|s| - 1], target) + if s[|s| - 1].index <= target then [s[|s| - 1]] else []
  }

  ghost function Indices(s: seq<Batch>): set<nat> {
    set i | 0 <= i < |s| :: s[i].index
  }

  lemma {:induction false} KeptOfTwo(a: seq<Batch>, b: seq<Batch>, gone: set<nat>)
    ensures Kept(a + b, gone) == Kept(a, gone) + Kept(b, gone)
    decreases |b|
  {
    if b == [] {
      assert a + b == a;
    } else {
      KeptOfTwo(a, b[..|b| - 1], gone);
      assert (a + b)[..|a + b| - 1] == a + b[..|b| - 1];
    }
  }

  lemma {:induction false} UpToOfTwo(a: seq<Batch>, b: seq<Batch>, target: nat)
    ensures UpTo(a + b, target) == UpTo(a, target) + UpTo(b, target)
    decreases |b|
  {
    if b == [] {
      assert a + b == a;
    } else {
      UpToOfTwo(a, b[..|b| - 1], target);
      assert (a + b)[..|a + b| - 1] == a + b[..|b| - 1];
    }
  }

  /** Rolling back and leaving commute. */
  lemma {:induction false} KeptUpTo(s: seq<Batch>, gone: set<nat>, target: nat)
    ensures Kept(UpTo(s, target), gone) == UpTo(Kept(s, gone), target)
    decreases |s|
  {
    if s != [] {
      var init, last := s[..|s| - 1], [s[|s| - 1]];
      KeptUpTo(init, gone, target);
      KeptOfTwo(UpTo(init, target), if last[0].index <= target then last else [], gone);
      UpToOfTwo(Kept(init, gone), if last[0].index in gone then [] else last, target);
      assert last[..0] == [];
    }
  }

  lemma {:induction false} KeptTwice(s: seq<Batch>, gone: set<nat>, more: set<nat>)
    ensures Kept(s, gone + more) == Kept(Kept(s, gone), more)
    decreases |s|
  {
    if s != [] {
      var init, last := s[..|s| - 1], [s[|s| - 1]];
      KeptTwice(init, gone, more);
      KeptOfTwo(Kept(init, gone), if last[0].index in gone then [] else last, more);
      assert last[..0] == [];
    }
  }

  lemma {:induction false} KeptAll(s: seq<Batch>, gone: set<nat>)
    requires forall i :: 0 <= i < |s| ==> s[i].index !in gone
    ensures Kept(s, gone) == s
  {
    if s != [] {
      KeptAll(s[..|s| - 1], gone);
    }
  }

  lemma {:induction false} KeptNone(s: seq<Batch>, gone: set<nat>)
    requires forall i :: 0 <= i < |s| ==> s[i].index in gone
    ensures Kept(s, gone) == []
  {
    if s != [] {
      KeptNone(s[..|s| - 1], gone);
    }
  }

  /** When the run `mid` leaves an ascending window, exactly its neighbours stay. */
  lemma RunLeaves(live: seq<Batch>, gone: set<nat>, a: seq<Batch>, mid: seq<Batch>, b: seq<Batch>)
    requires Ascending(a + mid + b) && Kept(live, gone) == a + mid + b
    ensures Kept(live, gone + Indices(mid)) == a + b
  {
    hide Kept;
    var all, out := a + mid + b, Indices(mid);
    KeptTwice(live, gone, out);
    KeptOfTwo(a + mid, b, out);
    KeptOfTwo(a, mid, out);
    forall i | 0 <= i < |a| ensures a[i].index !in out {
      forall j | 0 <= j < |mid| ensures a[i].index < mid[j].index {
        assert all[i] == a[i] && all[|a| + j] == mid[j];
      }
    }
    forall i | 0 <= i < |b| ensures b[i].index !in out {
      forall j | 0 <= j < |mid| ensures mid[j].index < b[i].index {
        assert all[|a| + |mid| + i] == b[i] && all[|a| + j] == mid[j];
      }
    }
    KeptAll(a, out);
    KeptAll(b, out);
    KeptNone(mid, out);
  }

  lemma {:induction false} KeptIsWithin(s: seq<Batch>, gone: set<nat>)
    ensures forall b :: b in Kept(s, gone) <==> b in s && b.index !in gone
  {
    if s != [] {
      KeptIsWithin(s[..|s| - 1], gone);
      assert s == s[..|s| - 1] + [s[|s| - 1]];
    }
  }

  lemma {:induction false} KeptAscends(s: seq<Batch>, gone: set<nat>)
    requires Ascending(s)
    ensures Ascending(Kept(s, gone))
  {
    if s != [] {
      var init := s[..|s| - 1];
      KeptAscends(init, gone);
      KeptIsWithin(init, gone);
      var k := Kept(init, gone);
      forall i | 0 <= i < |k| ensures k[i].index < s[|s| - 1].index {
        assert k[i] in init;
      }
    }
  }

  lemma {:induction false} UpToAscends(s: seq<Batch>, target: nat)
    requires Ascending(s)
    ensures Ascending(UpTo(s, target))
  {
    if s != [] {
      var init := s[..|s| - 1];
      UpToAscends(init, target);
      var k := UpTo(init, target);
      forall i | 0 <= i < |k| ensures k[i].index < s[|s| - 1].index {
        assert k[i] in init;
      }
    }
  }

  // ---- The inbox ----

  datatype Command = Arrived(batch: Batch) | RolledBack(target: nat)

  /** The batches received and not rolled back. */
  ghost function Live(live: seq<Batch>, cmds: seq<Command>): seq<Batch>
    decreases |cmds|
  {
    if cmds == [] then live else Received(Live(live, cmds[..|cmds| - 1]), cmds[|cmds| - 1])
  }

  ghost function Received(live: seq<Batch>, cmd: Command): seq<Batch> {
    match cmd
    case Arrived(batch) => live + [batch]
    case RolledBack(target) => UpTo(live, target)
  }

  /** A batch is live exactly if it has arrived and no rollback since went below it. */
  lemma {:induction false} LiveExactlyWhen(cmds: seq<Command>, b: Batch)
    ensures b in Live([], cmds) <==>
            exists i :: 0 <= i < |cmds| && cmds[i] == Arrived(b)
                        && forall j :: i < j < |cmds| && cmds[j].RolledBack? ==> b.index <= cmds[j].target
    decreases |cmds|
  {
    if cmds != [] {
      var n := |cmds| - 1;
      var init := cmds[..n];
      LiveExactlyWhen(init, b);
      assert forall i :: 0 <= i < n ==> init[i] == cmds[i];
      if cmds[n] == Arrived(b) {
        assert b in Live([], cmds);
      }
    }
  }

  /** Batches arrive in scheduling order: each above all that are live. */
  ghost predicate InOrder(live: seq<Batch>, cmds: seq<Command>) {
    forall i :: 0 <= i <= |cmds| ==> Ascending(Live(live, cmds[..i]))
  }
}
