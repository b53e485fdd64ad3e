/** What the aggregate prover's worker does to its two queues, round by round. */
module BundleRounds {
  import opened Numbers
  import opened Options
  import opened BatchWindow

  /** The bundle size bounds, and whether a settlement watch is wired. */
  datatype Config = Config(minSize: nat, maxSize: nat, hasWatch: bool)

  /** A bundle with the queues it was cut from: the front of the queue, or, behind a
      settlement that covers the first `covered` retained batches, the front of the rest. */
  datatype Formation =
    | FirstTime(retained: seq<Batch>, queue: seq<Batch>, take: nat)
    | Again(retained: seq<Batch>, queue: seq<Batch>, covered: nat, size: nat)
  {
    ghost predicate WellCut() {
      match this
      case FirstTime(_, _, _) => 0 < take <= |queue|
      case Again(_, _, _, _) => 0 < size && covered + size <= |retained|
    }

    ghost function Bundle(): (b: seq<Batch>)
      requires WellCut()
      ensures b != []
    {
      match this
      case FirstTime(_, _, _) => queue[..take]
      case Again(_, _, _, _) => retained[covered..covered + size]
    }
  }

  datatype Window = Window(queued: seq<Batch>, retained: seq<Batch>, guard: Option<nat>, formed: seq<Formation>)

  /** When a shutdown is signalled: not in this round, before a bundle is taken from the queue,
      or while the bundle is proved. */
  datatype Shutdown = Never | Before | During

  /** What one round of the loop meets: the commands in the inbox, a settlement if the watch
      advanced, how the status checks on the batches come out, and when it is shut down. */
  datatype Round = Round(inbox: seq<Command>, settlement: Option<Option<nat>>, ready: set<nat>, canceled: set<nat>,
                         shutdown: Shutdown)

  // ---- The steps of a round ----

  function Taken(w: Window, cmd: Command): Window {
    match cmd
    case Arrived(batch) => w.(queued := w.queued + [batch])
    case RolledBack(target) =>
      w.(queued := UpTo(w.queued, target), retained := UpTo(w.retained, target), guard := None)
  }

  ghost function Drained(w: Window, cmds: seq<Command>): Window
    decreases |cmds|
  {
    if cmds == [] then w else Taken(Drained(w, cmds[..|cmds| - 1]), cmds[|cmds| - 1])
  }

  /** How many retained batches a settlement on `boundary` covers: up to its last occurrence. */
  ghost function Covered(retained: seq<Batch>, boundary: nat): (n: nat)
    ensures n <= |retained| && (n > 0 ==> retained[n - 1].block == boundary)
    ensures forall i :: n <= i < |retained| ==> retained[i].block != boundary
  {
    if retained == [] then 0
    else if retained[|retained| - 1].block == boundary then |retained|
    else Covered(retained[..|retained| - 1], boundary)
  }

  /** Drops what a settlement covers and bundles the front of the rest, once per first batch. */
  ghost function Settled(c: Config, w: Window, latest: Option<nat>): Window {
    var n := if latest.None? then 0 else Covered(w.retained, latest.value);
    if n == 0 then w
    else
      var rest := w.retained[n..];
      var size := Min(|rest|, c.maxSize);
      if size == 0 then w.(retained := rest, guard := None)
      else if w.guard == Some(rest[0].index) then w.(retained := rest)
      else w.(retained := rest, guard := Some(rest[0].index),
              formed := w.formed + [Again(w.retained, w.queued, n, size)])
  }

  /** The leading canceled batches. */
  ghost function CanceledFront(q: seq<Batch>, canceled: set<nat>): (n: nat)
    ensures n <= |q| && (forall i :: 0 <= i < n ==> q[i].index in canceled)
    ensures n < |q| ==> q[n].index !in canceled
  {
    if q == [] || q[0].index !in canceled then 0 else 1 + CanceledFront(q[1..], canceled)
  }

  /** Where the ready front ends, from `n` on. */
  ghost function ReadyFront(q: seq<Batch>, maxSize: nat, ready: set<nat>, canceled: set<nat>, n: nat): (end: nat)
    requires n <= |q|
    ensures n <= end <= |q| && (end <= maxSize || end == n)
    ensures forall i :: n <= i < end ==> q[i].index in ready && q[i].index !in canceled
    ensures end < |q| && end < maxSize ==> q[end].index !in ready || q[end].index in canceled
    decreases |q| - n
  {
    if n < |q| && n < maxSize && q[n].index in ready && q[n].index !in canceled
    then ReadyFront(q, maxSize, ready, canceled, n + 1)
    else n
  }

  /** A bundle can be formed, or a canceled front evicted. */
  ghost predicate Progresses(c: Config, w: Window, ready: set<nat>, canceled: set<nat>) {
    && w.queued != []
    && (w.queued[0].index in canceled || ReadyFront(w.queued, c.maxSize, ready, canceled, 1) >= c.minSize)
  }

  /** Evicts a canceled front, or forms a bundle from the ready front if it is long enough,
      unless a shutdown comes first. */
  ghost function Proved(c: Config, w: Window, ready: set<nat>, canceled: set<nat>, shutdown: Shutdown): Window {
    if shutdown.Before? || !Progresses(c, w, ready, canceled) then w
    else if w.queued[0].index in canceled then w.(queued := w.queued[CanceledFront(w.queued, canceled)..])
    else
      var take := ReadyFront(w.queued, c.maxSize, ready, canceled, 1);
      w.(queued := w.queued[take..],
         retained := if c.hasWatch && shutdown.Never? then w.retained + w.queued[..take] else w.retained,
         formed := w.formed + [FirstTime(w.retained, w.queued, take)])
  }

  /** The settlement a round acts on. */
  function Watched(c: Config, r: Round): Option<nat> {
    if c.hasWatch && r.settlement.Some? then r.settlement.value else None
  }

  ghost function AfterRound(c: Config, w: Window, r: Round): Window {
    Proved(c, Settled(c, Drained(w, r.inbox), Watched(c, r)), r.ready, r.canceled, r.shutdown)
  }

  ghost function AfterRun(c: Config, w: Window, rounds: seq<Round>): Window
    decreases |rounds|
  {
    if rounds == [] then w else AfterRound(c, AfterRun(c, w, rounds[..|rounds| - 1]), rounds[|rounds| - 1])
  }

  ghost function Inboxes(rounds: seq<Round>): seq<Command> {
    if rounds == [] then [] else Inboxes(rounds[..|rounds| - 1]) + rounds[|rounds| - 1].inbox
  }

  // ---- Departures ----

  /** The ways a live batch leaves: covered by a settlement, canceled, or discarded because no
      settlement watch is wired or the prover is shutting down. */
  datatype Departures = Departures(settled: set<nat>, canceled: set<nat>, discarded: set<nat>) {
    ghost function All(): set<nat> {
      settled + canceled + discarded
    }

    ghost function UpTo(target: nat): Departures {
      Departures(set i | i in settled && i <= target, set i | i in canceled && i <= target,
                 set i | i in discarded && i <= target)
    }
  }

  ghost function GoneDraining(gone: Departures, cmds: seq<Command>): Departures
    decreases |cmds|
  {
    if cmds == [] then gone
    else
      var before, cmd := GoneDraining(gone, cmds[..|cmds| - 1]), cmds[|cmds| - 1];
      if cmd.RolledBack? then before.UpTo(cmd.target) else before
  }

  ghost function GoneSettling(gone: Departures, w: Window, latest: Option<nat>): Departures {
    var n := if latest.None? then 0 else Covered(w.retained, latest.value);
    gone.(settled := gone.settled + Indices(w.retained[..n]))
  }

  ghost function GoneProving(c: Config, gone: Departures, w: Window, ready: set<nat>, canceled: set<nat>,
                             shutdown: Shutdown)
    : Departures
  {
    if shutdown.Before? || !Progresses(c, w, ready, canceled) then gone
    else if w.queued[0].index in canceled then
      gone.(canceled := gone.canceled + Indices(w.queued[..CanceledFront(w.queued, canceled)]))
    else if c.hasWatch && shutdown.Never? then gone
    else gone.(discarded := gone.discarded + Indices(w.queued[..ReadyFront(w.queued, c.maxSize, ready, canceled, 1)]))
  }

  ghost function GoneInRound(c: Config, gone: Departures, w: Window, r: Round): Departures {
    var drained := Drained(w, r.inbox);
    var gone1 := GoneSettling(GoneDraining(gone, r.inbox), drained, Watched(c, r));
    GoneProving(c, gone1, Settled(c, drained, Watched(c, r)), r.ready, r.canceled, r.shutdown)
  }

  /** What has left over a run. */
  ghost function GoneAfter(c: Config, gone: Departures, w: Window, rounds: seq<Round>): Departures
    decreases |rounds|
  {
    if rounds == [] then gone
    else
      var n := |rounds| - 1;
      GoneInRound(c, GoneAfter(c, gone, w, rounds[..n]), AfterRun(c, w, rounds[..n]), rounds[n])
  }

  // ---- Conservation ----

  /** Every live batch is held, in order, until it leaves. */
  ghost predicate Held(live: seq<Batch>, gone: Departures, held: seq<Batch>) {
    Ascending(live) && gone.All() <= Indices(live) && Kept(live, gone.All()) == held
  }

  lemma HeldAscends(live: seq<Batch>, gone: Departures, held: seq<Batch>)
    requires Held(live, gone, held)
    ensures Ascending(held) && forall b :: b in held <==> b in live && b.index !in gone.All()
  {
    KeptAscends(live, gone.All());
    KeptIsWithin(live, gone.All());
  }

  lemma RunDeparts(live: seq<Batch>, gone: Departures, a: seq<Batch>, mid: seq<Batch>, b: seq<Batch>, now: Departures)
    requires Held(live, gone, a + mid + b) && now.All() == gone.All() + Indices(mid)
    ensures Held(live, now, a + b)
  {
    hide Kept;
    HeldAscends(live, gone, a + mid + b);
    RunLeaves(live, gone.All(), a, mid, b);
    forall i | 0 <= i < |mid| ensures mid[i].index in Indices(live) {
      assert (a + mid + b)[|a| + i] == mid[i];
      IndexIsListed(live, mid[i]);
    }
  }

  lemma IndexIsListed(live: seq<Batch>, b: Batch)
    requires b in live
    ensures b.index in Indices(live)
  {
    var k :| 0 <= k < |live| && live[k] == b;
  }

  lemma ArrivalIsHeld(live: seq<Batch>, gone: Departures, held: seq<Batch>, batch: Batch)
    requires Held(live, gone, held) && Ascending(live + [batch])
    ensures Held(live + [batch], gone, held + [batch])
  {
    var more := live + [batch];
    KeptOfTwo(live, [batch], gone.All());
    forall i | i in gone.All() ensures i in Indices(more) && i < batch.index {
      var k :| 0 <= k < |live| && live[k].index == i;
      assert more[k].index == i && more[|live|] == batch;
    }
    KeptAll([batch], gone.All());
  }

  lemma {:induction false} KeptOfFewer(s: seq<Batch>, gone: set<nat>, fewer: set<nat>)
    requires forall i :: 0 <= i < |s| ==> (s[i].index in gone <==> s[i].index in fewer)
    ensures Kept(s, gone) == Kept(s, fewer)
  {
    if s != [] {
      KeptOfFewer(s[..|s| - 1], gone, fewer);
    }
  }

  lemma StillLive(live: seq<Batch>, target: nat, i: nat)
    requires i in Indices(live) && i <= target
    ensures i in Indices(UpTo(live, target))
  {
    var cut := UpTo(live, target);
    var k :| 0 <= k < |live| && live[k].index == i;
    assert live[k] in cut;
    var j :| 0 <= j < |cut| && cut[j] == live[k];
  }

  lemma CutIsBelow(live: seq<Batch>, target: nat, i: nat)
    requires i < |UpTo(live, target)|
    ensures UpTo(live, target)[i].index <= target
  {
    assert UpTo(live, target)[i] in UpTo(live, target);
  }

  lemma RollbackIsHeld(live: seq<Batch>, gone: Departures, retained: seq<Batch>, queued: seq<Batch>, target: nat)
    requires Held(live, gone, retained + queued)
    ensures Held(UpTo(live, target), gone.UpTo(target), UpTo(retained, target) + UpTo(queued, target))
  {
    hide Kept;
    hide UpTo;
    hide Ascending;
    hide Indices;
    var cut, left := UpTo(live, target), gone.UpTo(target);
    UpToAscends(live, target);
    KeptUpTo(live, gone.All(), target);
    UpToOfTwo(retained, queued, target);
    forall i | 0 <= i < |cut| ensures cut[i].index in gone.All() <==> cut[i].index in left.All() {
      CutIsBelow(live, target, i);
    }
    KeptOfFewer(cut, gone.All(), left.All());
    forall i | i in left.All() ensures i in Indices(cut) {
      StillLive(live, target, i);
    }
  }

  lemma {:induction false} DrainConserves(live: seq<Batch>, gone: Departures, w: Window, cmds: seq<Command>)
    requires Held(live, gone, w.retained + w.queued) && InOrder(live, cmds)
    ensures var v := Drained(w, cmds); Held(Live(live, cmds), GoneDraining(gone, cmds), v.retained + v.queued)
    decreases |cmds|
  {
    hide Held;
    hide Ascending;
    hide UpTo;
    if cmds != [] {
      var n := |cmds| - 1;
      InOrderPrefix(live, cmds, n);
      DrainConserves(live, gone, w, cmds[..n]);
      var now, g, v := Live(live, cmds[..n]), GoneDraining(gone, cmds[..n]), Drained(w, cmds[..n]);
      match cmds[n] {
        case Arrived(batch) =>
          ArrivalIsHeld(now, g, v.retained + v.queued, batch);
          assert v.retained + v.queued + [batch] == v.retained + (v.queued + [batch]);
        case RolledBack(target) =>
          RollbackIsHeld(now, g, v.retained, v.queued, target);
      }
    }
  }

  lemma InOrderPrefix(live: seq<Batch>, cmds: seq<Command>, n: nat)
    requires InOrder(live, cmds) && n <= |cmds|
    ensures InOrder(live, cmds[..n]) && Ascending(Live(live, cmds[..n])) && Ascending(Live(live, cmds))
  {
    hide Live;
    hide Ascending;
    assert cmds[..|cmds|] == cmds;
    forall i | 0 <= i <= n ensures Ascending(Live(live, cmds[..n][..i])) {
      assert cmds[..n][..i] == cmds[..i];
    }
  }

  lemma SettlingConserves(c: Config, live: seq<Batch>, gone: Departures, w: Window, latest: Option<nat>)
    requires Held(live, gone, w.retained + w.queued)
    ensures var v := Settled(c, w, latest); Held(live, GoneSettling(gone, w, latest), v.retained + v.queued)
  {
    hide Held;
    var n := if latest.None? then 0 else Covered(w.retained, latest.value);
    assert w.retained + w.queued == [] + w.retained[..n] + (w.retained[n..] + w.queued);
    assert [] + (w.retained[n..] + w.queued) == w.retained[n..] + w.queued;
    RunDeparts(live, gone, [], w.retained[..n], w.retained[n..] + w.queued, GoneSettling(gone, w, latest));
  }

  lemma ProvingConserves(c: Config, live: seq<Batch>, gone: Departures, w: Window, ready: set<nat>, canceled: set<nat>,
                         shutdown: Shutdown)
    requires Held(live, gone, w.retained + w.queued)
    ensures var v := Proved(c, w, ready, canceled, shutdown);
            Held(live, GoneProving(c, gone, w, ready, canceled, shutdown), v.retained + v.queued)
  {
    hide Held;
    hide Indices;
    if !shutdown.Before? && Progresses(c, w, ready, canceled) {
      var n := if w.queued[0].index in canceled then CanceledFront(w.queued, canceled)
               else ReadyFront(w.queued, c.maxSize, ready, canceled, 1);
      var front, rest := w.queued[..n], w.queued[n..];
      assert w.retained + w.queued == w.retained + front + rest;
      if w.queued[0].index !in canceled && c.hasWatch && shutdown.Never? {
        assert w.retained + front + rest == (w.retained + front) + rest;
      } else {
        RunDeparts(live, gone, w.retained, front, rest, GoneProving(c, gone, w, ready, canceled, shutdown));
      }
    }
  }

  lemma RoundConserves(c: Config, live: seq<Batch>, gone: Departures, w: Window, r: Round)
    requires Held(live, gone, w.retained + w.queued) && InOrder(live, r.inbox)
    ensures var v := AfterRound(c, w, r);
            Held(Live(live, r.inbox), GoneInRound(c, gone, w, r), v.retained + v.queued)
  {
    hide Held;
    hide Live;
    hide InOrder;
    hide Settled;
    hide Proved;
    hide GoneSettling;
    hide GoneProving;
    var now, g, v := Live(live, r.inbox), GoneDraining(gone, r.inbox), Drained(w, r.inbox);
    DrainConserves(live, gone, w, r.inbox);
    SettlingConserves(c, now, g, v, Watched(c, r));
    ProvingConserves(c, now, GoneSettling(g, v, Watched(c, r)), Settled(c, v, Watched(c, r)), r.ready, r.canceled,
                     r.shutdown);
  }

  /** Over every run the held batches are exactly the live ones that have not left. */
  lemma {:induction false} RunConserves(c: Config, live: seq<Batch>, gone: Departures, w: Window, rounds: seq<Round>)
    requires Held(live, gone, w.retained + w.queued) && InOrder(live, Inboxes(rounds))
    ensures var v := AfterRun(c, w, rounds);
            Held(Live(live, Inboxes(rounds)), GoneAfter(c, gone, w, rounds), v.retained + v.queued)
    decreases |rounds|
  {
    hide Held;
    hide InOrder;
    hide AfterRound;
    hide GoneInRound;
    if rounds == [] {
      LiveNothing(live);
    } else {
      var n := |rounds| - 1;
      RunSplits(live, rounds);
      RunConserves(c, live, gone, w, rounds[..n]);
      RoundConserves(c, Live(live, Inboxes(rounds[..n])), GoneAfter(c, gone, w, rounds[..n]),
                     AfterRun(c, w, rounds[..n]), rounds[n]);
    }
  }

  lemma LiveNothing(live: seq<Batch>)
    ensures Live(live, []) == live
  {
  }

  /** The last round of a run continues the rounds before it. */
  lemma RunSplits(live: seq<Batch>, rounds: seq<Round>)
    requires rounds != [] && InOrder(live, Inboxes(rounds))
    ensures var n := |rounds| - 1; var now := Live(live, Inboxes(rounds[..n]));
            && InOrder(live, Inboxes(rounds[..n])) && InOrder(now, rounds[n].inbox)
            && Live(live, Inboxes(rounds)) == Live(now, rounds[n].inbox)
  {
    hide Ascending;
    hide Live;
    var n := |rounds| - 1;
    var done, inbox, all := Inboxes(rounds[..n]), rounds[n].inbox, Inboxes(rounds);
    LiveOfTwo(live, done, inbox);
    forall k | 0 <= k <= |done| ensures Ascending(Live(live, done[..k])) {
      assert done[..k] == all[..k];
    }
    forall k | 0 <= k <= |inbox| ensures Ascending(Live(Live(live, done), inbox[..k])) {
      LiveOfTwo(live, done, inbox[..k]);
      assert done + inbox[..k] == all[..|done| + k];
    }
  }

  lemma {:induction false} LiveOfTwo(live: seq<Batch>, a: seq<Command>, b: seq<Command>)
    ensures Live(live, a + b) == Live(Live(live, a), b)
    decreases |b|
  {
    if b == [] {
      assert a + b == a;
    } else {
      LiveOfTwo(live, a, b[..|b| - 1]);
      assert (a + b)[..|a + b| - 1] == a + b[..|b| - 1];
    }
  }

  // ---- Who leaves ----

  /** The batches live when round `i` of a run has drained its inbox. */
  ghost function LiveAt(live: seq<Batch>, rounds: seq<Round>, i: nat): seq<Batch>
    requires i < |rounds|
  {
    Live(live, Inboxes(rounds[..i + 1]))
  }

  /** A settlement of round `i` covers index `x`: its block is that of a live batch at or
      behind `x`. */
  ghost predicate CoveredIn(c: Config, live: seq<Batch>, rounds: seq<Round>, i: nat, x: nat) {
    && i < |rounds| && Watched(c, rounds[i]).Some?
    && exists b: Batch :: b in LiveAt(live, rounds, i) && b.block == Watched(c, rounds[i]).value && x <= b.index
  }

  /** The check of round `i` found `x` canceled. */
  ghost predicate CanceledIn(rounds: seq<Round>, i: nat, x: nat) {
    i < |rounds| && x in rounds[i].canceled
  }

  /** What a run may let go: what some settlement covered, what some check found canceled, and
      otherwise only without a settlement watch or in a shutdown. */
  ghost predicate Justified(c: Config, live: seq<Batch>, gone: Departures, rounds: seq<Round>, now: Departures) {
    && (forall x :: x in now.settled ==> x in gone.settled || exists i: nat :: CoveredIn(c, live, rounds, i, x))
    && (forall x :: x in now.canceled ==> x in gone.canceled || exists i: nat :: CanceledIn(rounds, i, x))
    && (now.discarded <= gone.discarded || !c.hasWatch || exists i :: 0 <= i < |rounds| && rounds[i].shutdown.During?)
  }

  lemma {:induction false} DrainingOnlyForgets(gone: Departures, cmds: seq<Command>)
    ensures var now := GoneDraining(gone, cmds);
            now.settled <= gone.settled && now.canceled <= gone.canceled && now.discarded <= gone.discarded
    decreases |cmds|
  {
    if cmds != [] {
      DrainingOnlyForgets(gone, cmds[..|cmds| - 1]);
    }
  }

  /** What one round lets go. */
  lemma RoundJustifies(c: Config, live: seq<Batch>, gone: Departures, w: Window, r: Round)
    requires Held(live, gone, w.retained + w.queued) && InOrder(live, r.inbox)
    ensures var now := GoneInRound(c, gone, w, r);
            && (forall x :: x in now.settled ==>
                  || x in gone.settled
                  || (Watched(c, r).Some? && exists b: Batch ::
                        b in Live(live, r.inbox) && b.block == Watched(c, r).value && x <= b.index))
            && (forall x :: x in now.canceled ==> x in gone.canceled || x in r.canceled)
            && (now.discarded <= gone.discarded || !c.hasWatch || r.shutdown.During?)
  {
    hide Held;
    hide Live;
    hide InOrder;
    hide Drained;
    hide GoneDraining;
    hide Settled;
    var v := Drained(w, r.inbox);
    DrainingOnlyForgets(gone, r.inbox);
    DrainConserves(live, gone, w, r.inbox);
    HeldAscends(Live(live, r.inbox), GoneDraining(gone, r.inbox), v.retained + v.queued);
    if Watched(c, r).Some? {
      var n := Covered(v.retained, Watched(c, r).value);
      if n > 0 {
        CoveredBehind(v.retained + v.queued, v.retained, n);
        assert (v.retained + v.queued)[n - 1] == v.retained[n - 1];
        assert v.retained[n - 1] in Live(live, r.inbox);
      }
    }
  }

  lemma CoveredBehind(held: seq<Batch>, retained: seq<Batch>, n: nat)
    requires Ascending(held) && retained <= held && 0 < n <= |retained|
    ensures forall x :: x in Indices(retained[..n]) ==> x <= retained[n - 1].index
  {
    forall x | x in Indices(retained[..n]) ensures x <= retained[n - 1].index {
      var k :| 0 <= k < n && retained[..n][k].index == x;
      assert held[k] == retained[k] && held[n - 1] == retained[n - 1];
    }
  }

  /** Over every run a live batch leaves only by a settlement that covers it or because a
      check found it canceled, unless no watch is wired or the prover is shutting down. */
  lemma {:induction false} RunJustifies(c: Config, live: seq<Batch>, gone: Departures, w: Window, rounds: seq<Round>)
    requires Held(live, gone, w.retained + w.queued) && InOrder(live, Inboxes(rounds))
    ensures Justified(c, live, gone, rounds, GoneAfter(c, gone, w, rounds))
    decreases |rounds|
  {
    hide Held;
    hide Live;
    hide InOrder;
    hide GoneInRound;
    if rounds != [] {
      var n := |rounds| - 1;
      RunSplits(live, rounds);
      RunJustifies(c, live, gone, w, rounds[..n]);
      RunConserves(c, live, gone, w, rounds[..n]);
      RoundJustifies(c, Live(live, Inboxes(rounds[..n])), GoneAfter(c, gone, w, rounds[..n]),
                     AfterRun(c, w, rounds[..n]), rounds[n]);
      JustifiedSoFar(c, live, gone, rounds, GoneAfter(c, gone, w, rounds[..n]), GoneAfter(c, gone, w, rounds));
    }
  }

  lemma JustifiedSoFar(c: Config, live: seq<Batch>, gone: Departures, rounds: seq<Round>, before: Departures,
                       now: Departures)
    requires rounds != [] && Justified(c, live, gone, rounds[..|rounds| - 1], before)
    requires var r, at := rounds[|rounds| - 1], Live(live, Inboxes(rounds));
             && (forall x :: x in now.settled ==>
                   || x in before.settled
                   || (Watched(c, r).Some? && exists b: Batch ::
                         b in at && b.block == Watched(c, r).value && x <= b.index))
             && (forall x :: x in now.canceled ==> x in before.canceled || x in r.canceled)
             && (now.discarded <= before.discarded || !c.hasWatch || r.shutdown.During?)
    ensures Justified(c, live, gone, rounds, now)
  {
    hide Live;
    hide Inboxes;
    var n := |rounds| - 1;
    assert rounds[..n + 1] == rounds;
    forall x | x in now.settled ensures x in gone.settled || exists i: nat :: CoveredIn(c, live, rounds, i, x) {
      if x !in before.settled {
        assert CoveredIn(c, live, rounds, n, x);
      } else if x !in gone.settled {
        var i: nat :| CoveredIn(c, live, rounds[..n], i, x);
        assert rounds[..n][..i + 1] == rounds[..i + 1];
        assert CoveredIn(c, live, rounds, i, x);
      }
    }
    forall x | x in now.canceled ensures x in gone.canceled || exists i: nat :: CanceledIn(rounds, i, x) {
      if x !in before.canceled {
        assert CanceledIn(rounds, n, x);
      } else if x !in gone.canceled {
        var i: nat :| CanceledIn(rounds[..n], i, x);
        assert CanceledIn(rounds, i, x);
      }
    }
    if !(before.discarded <= gone.discarded) && c.hasWatch {
      var i :| 0 <= i < n && rounds[..n][i].shutdown.During?;
      assert rounds[i].shutdown.During?;
    }
  }

  // ---- How bundles are cut ----

  ghost predicate Holdable(live: seq<Batch>, held: seq<Batch>) {
    exists gone: Departures :: Held(live, gone, held)
  }

  /** A first-time bundle is the longest ready front of the queue within the size bounds; a
      re-formed one starts right behind the last batch of the settled block and is as long
      as the rest and the maximal size allow. */
  ghost predicate Fits(c: Config, f: Formation, r: Round) {
    && f.WellCut()
    && match f
       case FirstTime(_, queue, take) =>
         && c.minSize <= take && (take <= c.maxSize || c.maxSize == 0)
         && (forall i :: 0 <= i < take ==> queue[i].index !in r.canceled)
         && (forall i :: 0 < i < take ==> queue[i].index in r.ready)
         && (take < |queue| && take < c.maxSize ==> queue[take].index !in r.ready || queue[take].index in r.canceled)
       case Again(retained, _, covered, size) =>
         && Watched(c, r).Some? && 0 < covered && retained[covered - 1].block == Watched(c, r).value
         && (forall i :: covered <= i < |retained| ==> retained[i].block != Watched(c, r).value)
         && size == Min(|retained| - covered, c.maxSize)
  }

  /** Formation `f` of round `i`, out of what was live then. */
  ghost predicate FormedIn(c: Config, live: seq<Batch>, rounds: seq<Round>, i: nat, f: Formation) {
    && i < |rounds| && Fits(c, f, rounds[i])
    && Holdable(LiveAt(live, rounds, i), f.retained + f.queue)
  }

  ghost predicate Formed(c: Config, live: seq<Batch>, rounds: seq<Round>, f: Formation) {
    exists i: nat :: FormedIn(c, live, rounds, i, f)
  }

  /** What one round forms: at most a re-formed bundle and then a first-time one. */
  ghost predicate NewFormations(c: Config, live: seq<Batch>, r: Round, before: seq<Formation>, after: seq<Formation>) {
    && before <= after
    && forall k :: |before| <= k < |after| ==>
         Fits(c, after[k], r) && Holdable(live, after[k].retained + after[k].queue)
  }

  lemma SettlingForms(c: Config, live: seq<Batch>, gone: Departures, w: Window, r: Round)
    requires Held(live, gone, w.retained + w.queued)
    ensures NewFormations(c, live, r, w.formed, Settled(c, w, Watched(c, r)).formed)
  {
    hide Held;
    var latest := Watched(c, r);
    if latest.Some? && Covered(w.retained, latest.value) > 0 {
      var n := Covered(w.retained, latest.value);
      assert Fits(c, Again(w.retained, w.queued, n, Min(|w.retained| - n, c.maxSize)), r)
          || Min(|w.retained| - n, c.maxSize) == 0;
    }
  }

  lemma ProvingForms(c: Config, live: seq<Batch>, gone: Departures, w: Window, r: Round)
    requires Held(live, gone, w.retained + w.queued)
    ensures NewFormations(c, live, r, w.formed, Proved(c, w, r.ready, r.canceled, r.shutdown).formed)
  {
    hide Held;
  }

  lemma RoundForms(c: Config, live: seq<Batch>, gone: Departures, w: Window, r: Round)
    requires Held(live, gone, w.retained + w.queued) && InOrder(live, r.inbox)
    ensures NewFormations(c, Live(live, r.inbox), r, w.formed, AfterRound(c, w, r).formed)
  {
    hide Held;
    hide Live;
    hide InOrder;
    hide Settled;
    hide Proved;
    hide Fits;
    hide GoneSettling;
    var now, g, v := Live(live, r.inbox), GoneDraining(gone, r.inbox), Drained(w, r.inbox);
    DrainConserves(live, gone, w, r.inbox);
    DrainingFormsNothing(w, r.inbox);
    SettlingForms(c, now, g, v, r);
    SettlingConserves(c, now, g, v, Watched(c, r));
    ProvingForms(c, now, GoneSettling(g, v, Watched(c, r)), Settled(c, v, Watched(c, r)), r);
  }

  lemma {:induction false} DrainingFormsNothing(w: Window, cmds: seq<Command>)
    ensures Drained(w, cmds).formed == w.formed
    decreases |cmds|
  {
    if cmds != [] {
      DrainingFormsNothing(w, cmds[..|cmds| - 1]);
    }
  }

  /** Over every run each new bundle is cut as its round allows, out of the live batches. */
  lemma {:induction false} RunForms(c: Config, live: seq<Batch>, gone: Departures, w: Window, rounds: seq<Round>)
    requires Held(live, gone, w.retained + w.queued) && InOrder(live, Inboxes(rounds))
    ensures var formed := AfterRun(c, w, rounds).formed;
            && w.formed <= formed
            && forall k :: |w.formed| <= k < |formed| ==> Formed(c, live, rounds, formed[k])
    decreases |rounds|
  {
    hide Held;
    hide Live;
    hide InOrder;
    hide AfterRound;
    hide Fits;
    hide Holdable;
    if rounds != [] {
      var n := |rounds| - 1;
      RunSplits(live, rounds);
      RunForms(c, live, gone, w, rounds[..n]);
      RunConserves(c, live, gone, w, rounds[..n]);
      RoundForms(c, Live(live, Inboxes(rounds[..n])), GoneAfter(c, gone, w, rounds[..n]), AfterRun(c, w, rounds[..n]),
                 rounds[n]);
      var before, formed := AfterRun(c, w, rounds[..n]).formed, AfterRun(c, w, rounds).formed;
      assert rounds[..n + 1] == rounds;
      assert w.formed <= before <= formed;
      forall k | |w.formed| <= k < |formed| ensures Formed(c, live, rounds, formed[k]) {
        if k < |before| {
          assert Formed(c, live, rounds[..n], before[k]);
          var i: nat :| FormedIn(c, live, rounds[..n], i, before[k]);
          assert rounds[..n][..i + 1] == rounds[..i + 1] && formed[k] == before[k];
          assert FormedIn(c, live, rounds, i, formed[k]);
        } else {
          assert FormedIn(c, live, rounds, n, formed[k]);
        }
      }
    }
  }

  // ---- Bundles are formed when they can be ----

  /** Behind retained batch `n - 1` the block does not occur any more. */
  ghost predicate LastOf(retained: seq<Batch>, boundary: nat, n: nat) {
    && 0 < n <= |retained| && retained[n - 1].block == boundary
    && forall i :: n <= i < |retained| ==> retained[i].block != boundary
  }

  /** A settlement on a retained block drops everything up to its last occurrence. The front of
      what is left is bundled again, unless the guard says that was done; the guard then names
      its first batch, and is cleared if nothing is left. A settlement on any other block does
      nothing. */
  lemma SettlementReforms(c: Config, w: Window, boundary: nat, n: nat)
    ensures (forall i :: 0 <= i < |w.retained| ==> w.retained[i].block != boundary) ==>
              Settled(c, w, Some(boundary)) == w
    ensures LastOf(w.retained, boundary, n) ==>
              var v, rest := Settled(c, w, Some(boundary)), w.retained[n..];
              && v.retained == rest && v.queued == w.queued
              && (rest == [] || c.maxSize == 0 ==> v.formed == w.formed && v.guard == None)
              && (rest != [] && c.maxSize > 0 ==>
                    && v.guard == Some(rest[0].index)
                    && (v.formed == w.formed <==> w.guard == Some(rest[0].index))
                    && (w.guard != Some(rest[0].index) ==>
                          && |v.formed| == |w.formed| + 1 && w.formed <= v.formed && v.formed[|w.formed|].WellCut()
                          && v.formed[|w.formed|].Bundle() == if |rest| <= c.maxSize then rest else rest[..c.maxSize]))
  {
    if LastOf(w.retained, boundary, n) {
      assert Covered(w.retained, boundary) == n;
      var rest := w.retained[n..];
      var size := Min(|rest|, c.maxSize);
      if size > 0 {
        assert w.retained[n..n + size] == rest[..size];
        assert rest[..|rest|] == rest;
      }
    }
  }

  /** A rollback keeps what is not above its target, and the next settlement re-forms the front
      of what it leaves, even if it was re-formed from the same batch before. */
  lemma RollbackAllowsReforming(c: Config, w: Window, target: nat, boundary: nat, n: nat)
    ensures var u := Taken(w, RolledBack(target));
            && u.formed == w.formed
            && (forall b :: b in u.queued <==> b in w.queued && b.index <= target)
            && (forall b :: b in u.retained <==> b in w.retained && b.index <= target)
            && (c.maxSize > 0 && LastOf(u.retained, boundary, n) && n < |u.retained| ==>
                  |Settled(c, u, Some(boundary)).formed| == |w.formed| + 1)
  {
    hide UpTo;
    hide Settled;
    SettlementReforms(c, Taken(w, RolledBack(target)), boundary, n);
  }

  /** `take` is the length of the longest ready front: the first batch, and behind it ready and
      uncanceled ones up to the maximal size. */
  ghost predicate LongestReady(c: Config, q: seq<Batch>, ready: set<nat>, canceled: set<nat>, take: nat) {
    && 1 <= take <= |q| && (take == 1 || take <= c.maxSize)
    && (forall i :: 1 <= i < take ==> q[i].index in ready && q[i].index !in canceled)
    && (take < |q| && take < c.maxSize ==> q[take].index !in ready || q[take].index in canceled)
  }

  /** Without a shutdown first, a canceled front leaves the queue as far as it goes; otherwise the
      longest ready front is bundled exactly if it reaches the minimal size, and is retained if
      a watch is wired and no shutdown interrupts the proof. */
  lemma ReadyFrontIsBundled(c: Config, w: Window, ready: set<nat>, canceled: set<nat>, shutdown: Shutdown, n: nat)
    requires w.queued != [] && !shutdown.Before?
    ensures var v := Proved(c, w, ready, canceled, shutdown);
            && (w.queued[0].index in canceled && n <= |w.queued|
                && (forall i :: 0 <= i < n ==> w.queued[i].index in canceled)
                && (n < |w.queued| ==> w.queued[n].index !in canceled) ==>
                  v == w.(queued := w.queued[n..]))
            && (w.queued[0].index !in canceled && LongestReady(c, w.queued, ready, canceled, n) ==>
                  && (n < c.minSize ==> v == w)
                  && (n >= c.minSize ==>
                        && v.queued == w.queued[n..] && v.guard == w.guard
                        && (c.hasWatch && shutdown.Never? ==> v.retained == w.retained + w.queued[..n])
                        && (!c.hasWatch || !shutdown.Never? ==> v.retained == w.retained)
                        && |v.formed| == |w.formed| + 1 && w.formed <= v.formed && v.formed[|w.formed|].WellCut()
                        && v.formed[|w.formed|].Bundle() == w.queued[..n]))
  {
    if w.queued[0].index in canceled {
      var front := CanceledFront(w.queued, canceled);
      assert n < front ==> n < |w.queued|;
    } else if LongestReady(c, w.queued, ready, canceled, n) {
      var end := ReadyFront(w.queued, c.maxSize, ready, canceled, 1);
      assert end == n;
    }
  }

  /** A bundle is a strictly ascending run of live batches. */
  lemma BundleAscends(c: Config, live: seq<Batch>, rounds: seq<Round>, i: nat, f: Formation)
    requires FormedIn(c, live, rounds, i, f)
    ensures f.WellCut() && Ascending(f.Bundle()) && forall b :: b in f.Bundle() ==> b in LiveAt(live, rounds, i)
  {
    hide LiveAt;
    hide Held;
    hide Ascending;
    var at, held := LiveAt(live, rounds, i), f.retained + f.queue;
    var gone: Departures :| Held(at, gone, held);
    assert f.WellCut();
    hide *;
    HeldAscends(at, gone, held);
    var start, end := BundleIsARun(f);
    RunAscends(held, start, end);
  }

  lemma BundleIsARun(f: Formation) returns (start: nat, end: nat)
    requires f.WellCut()
    ensures start <= end <= |f.retained + f.queue| && f.Bundle() == (f.retained + f.queue)[start..end]
  {
    match f
    case FirstTime(retained, _, take) => start, end := |retained|, |retained| + take;
    case Again(_, _, covered, size) => start, end := covered, covered + size;
  }

  lemma RunAscends(s: seq<Batch>, i: nat, j: nat)
    requires Ascending(s) && i <= j <= |s|
    ensures Ascending(s[i..j]) && forall b :: b in s[i..j] ==> b in s
  {
  }
}
