/** The aggregate prover's worker: it forms bundles from the ready prefix of its queue, keeps
    what it bundled until a settlement covers it, and re-forms what a shorter settlement left. */
module Bundling {
  import opened Options
  import opened BatchWindow
  import opened BundleRounds

  datatype Handle = Handle(size: nat, checkpoint: nat, fromBlock: nat, proveTo: nat, noop: bool)

  /** The handle of a bundle: resolved at once if all its batches are empty. */
  ghost predicate Describes(h: Handle, bundle: seq<Batch>) {
    && bundle != [] && h.size == |bundle| && h.checkpoint == bundle[0].index && h.fromBlock == bundle[0].block
    && h.proveTo == bundle[|bundle| - 1].block
    && (h.noop <==> forall i :: 0 <= i < |bundle| ==> !bundle[i].hasTxs)
  }

  /** How many leading blocks a settlement on `boundary` covers. */
  method SettledPrefix(blocks: seq<nat>, boundary: nat) returns (n: Option<nat>)
    ensures n.None? <==> boundary !in blocks
    ensures n.Some? ==> 0 < n.value <= |blocks| && blocks[n.value - 1] == boundary && boundary !in blocks[n.value..]
  {
    var i := |blocks|;
    while i > 0
      invariant 0 <= i <= |blocks| && forall j :: i <= j < |blocks| ==> blocks[j] != boundary
    {
      if blocks[i - 1] == boundary {
        return Some(i);
      }
      i := i - 1;
    }
    return None;
  }

  class Worker {
    const minSize: nat
    const maxSize: nat
    const hasWatch: bool
    var queued: seq<Batch>
    var retained: seq<Batch>
    var lastReformedFrom: Option<nat>
    var emitted: seq<Handle>
    ghost var formed: seq<Formation>

    ghost function Bounds(): Config
      reads this
    {
      Config(minSize, maxSize, hasWatch)
    }

    ghost function Contents(): Window
      reads this
    {
      Window(queued, retained, lastReformedFrom, formed)
    }

    /** One handle was published for every bundle. */
    ghost predicate Valid()
      reads this
    {
      && |emitted| == |formed|
      && forall k :: 0 <= k < |formed| ==> formed[k].WellCut() && Describes(emitted[k], formed[k].Bundle())
    }

    constructor (minSize: nat, maxSize: nat, hasWatch: bool)
      requires minSize <= maxSize
      ensures Valid() && Contents() == Window([], [], None, []) && Bounds() == Config(minSize, maxSize, hasWatch)
    {
      this.minSize, this.maxSize, this.hasWatch := minSize, maxSize, hasWatch;
      queued, retained, lastReformedFrom, emitted, formed := [], [], None, [], [];
    }

    /** A command from the inbox. */
    method Receive(cmd: Command)
      requires Valid()
      modifies this`queued, this`retained, this`lastReformedFrom
      ensures Valid() && Contents() == Taken(old(Contents()), cmd)
    {
      match cmd {
        case Arrived(batch) => queued := queued + [batch];
        case RolledBack(target) => ApplyRollback(target);
      }
    }

    /** Drops what a rollback cut off. */
    method ApplyRollback(target: nat)
      modifies this`queued, this`retained, this`lastReformedFrom
      ensures queued == UpTo(old(queued), target) && retained == UpTo(old(retained), target)
      ensures lastReformedFrom == None
    {
      queued := UpTo(queued, target);
      retained := UpTo(retained, target);
      lastReformedFrom := None;
    }

    /** Publishes the handle of a bundle. */
    method ProveBundle(bundle: seq<Batch>, ghost f: Formation)
      requires Valid() && f.WellCut() && bundle == f.Bundle()
      modifies this`emitted, this`formed
      ensures Valid() && formed == old(formed) + [f] && old(emitted) <= emitted
    {
      var first, last := bundle[0], bundle[|bundle| - 1];
      var receipts := 0;
      for i := 0 to |bundle|
        invariant receipts == 0 <==> forall j :: 0 <= j < i ==> !bundle[j].hasTxs
      {
        if bundle[i].hasTxs {
          receipts := receipts + 1;
        }
      }
      emitted := emitted + [Handle(|bundle|, first.index, first.block, last.block, receipts == 0)];
      formed := formed + [f];
    }

    /** Takes the canceled front off the queue. */
    method EvictCanceled(canceled: set<nat>)
      modifies this`queued
      ensures queued == old(queued)[CanceledFront(old(queued), canceled)..]
    {
      ghost var n, all := 0, queued;
      while queued != [] && queued[0].index in canceled
        invariant n <= |all| && queued == all[n..]
        invariant CanceledFront(all, canceled) == n + CanceledFront(queued, canceled)
        decreases |queued|
      {
        assert queued[0] == all[n];
        queued := queued[1..];
        n := n + 1;
      }
    }

    /** Forms a bundle from the ready front of the queue, or evicts a canceled front. The front
        itself is waited for, until it is ready or canceled or a shutdown is signalled. */
    method TryProveOneBundle(ready: set<nat>, canceled: set<nat>, shutdown: Shutdown) returns (progress: bool)
      requires Valid()
      modifies this
      ensures Valid() && Contents() == Proved(Bounds(), old(Contents()), ready, canceled, shutdown)
      ensures progress <==> !shutdown.Before? && Progresses(Bounds(), old(Contents()), ready, canceled)
    {
      if queued == [] || shutdown.Before? {
        return false;
      }
      if queued[0].index in canceled {
        EvictCanceled(canceled);
        return true;
      }
      var take := 1;
      while take < |queued| && take < maxSize && queued[take].index in ready && queued[take].index !in canceled
        invariant 1 <= take <= |queued|
        invariant ReadyFront(queued, maxSize, ready, canceled, 1) == ReadyFront(queued, maxSize, ready, canceled, take)
      {
        take := take + 1;
      }
      if take < minSize {
        return false;
      }
      var bundle := queued[..take];
      ghost var f := FirstTime(retained, queued, take);
      queued := queued[take..];
      ProveBundle(bundle, f);
      if hasWatch && shutdown.Never? {
        retained := retained + bundle;
      }
      return true;
    }

    /** The blocks of the retained batches. */
    method RetainedBlocks() returns (blocks: seq<nat>)
      ensures |blocks| == |retained| && forall i :: 0 <= i < |blocks| ==> blocks[i] == retained[i].block
    {
      blocks := [];
      for i := 0 to |retained|
        invariant |blocks| == i && forall j :: 0 <= j < i ==> blocks[j] == retained[j].block
      {
        blocks := blocks + [retained[i].block];
      }
    }

    /** A settlement covers everything up to its block; what it leaves of the retained batches
        is bundled again, once, starting right behind that block. */
    method ReaggregateSuperseded(latest: Option<nat>)
      requires Valid()
      modifies this
      ensures Valid() && Contents() == Settled(Bounds(), old(Contents()), latest)
    {
      if latest.None? {
        return;
      }
      var blocks := RetainedBlocks();
      var drain := SettledPrefix(blocks, latest.value);
      CoveredIsPrefix(retained, blocks, latest.value, drain);
      if drain.None? {
        return;
      }
      ghost var before := retained;
      retained := retained[drain.value..];
      var suffixLen := if |retained| <= maxSize then |retained| else maxSize;
      if suffixLen == 0 {
        lastReformedFrom := None;
        return;
      }
      var suffix := retained[..suffixLen];
      if lastReformedFrom == Some(suffix[0].index) {
        return;
      }
      ProveBundle(suffix, Again(before, queued, drain.value, suffixLen));
      lastReformedFrom := Some(suffix[0].index);
    }

    /** Drains the inbox. */
    method Drain(inbox: seq<Command>)
      requires Valid()
      modifies this`queued, this`retained, this`lastReformedFrom
      ensures Valid() && Contents() == Drained(old(Contents()), inbox)
    {
      var i := 0;
      while i < |inbox|
        invariant i <= |inbox| && Valid() && Contents() == Drained(old(Contents()), inbox[..i])
      {
        assert inbox[..i + 1][..i] == inbox[..i];
        Receive(inbox[i]);
        i := i + 1;
      }
      assert inbox[..|inbox|] == inbox;
    }

    /** The worker's loop. A run ends with the round in which a shutdown is signalled. */
    method Run(rounds: seq<Round>)
      requires Valid() && forall i :: 0 <= i < |rounds| - 1 ==> rounds[i].shutdown.Never?
      modifies this
      ensures Valid() && Contents() == AfterRun(Bounds(), old(Contents()), rounds)
    {
      hide Valid;
      hide Drained;
      hide Settled;
      hide Proved;
      var i := 0;
      while i < |rounds|
        invariant i <= |rounds| && Valid() && Contents() == AfterRun(Bounds(), old(Contents()), rounds[..i])
      {
        var round := rounds[i];
        assert rounds[..i + 1][..i] == rounds[..i];
        Drain(round.inbox);
        NothingSettled(Bounds(), Contents());
        if hasWatch && round.settlement.Some? {
          ReaggregateSuperseded(round.settlement.value);
        }
        var _ := TryProveOneBundle(round.ready, round.canceled, round.shutdown);
        i := i + 1;
      }
      assert rounds[..|rounds|] == rounds;
    }
  }

  lemma NothingSettled(c: Config, w: Window)
    ensures Settled(c, w, None) == w
  {
  }

  /** The search from the back finds the covered prefix. */
  lemma CoveredIsPrefix(retained: seq<Batch>, blocks: seq<nat>, boundary: nat, drain: Option<nat>)
    requires |blocks| == |retained| && forall i :: 0 <= i < |blocks| ==> blocks[i] == retained[i].block
    requires drain.None? <==> boundary !in blocks
    requires drain.Some? ==> 0 < drain.value <= |blocks| && blocks[drain.value - 1] == boundary
                             && boundary !in blocks[drain.value..]
    ensures Covered(retained, boundary) == if drain.None? then 0 else drain.value
  {
    var n := Covered(retained, boundary);
    if n > 0 {
      assert blocks[n - 1] == boundary;
    }
  }
}
