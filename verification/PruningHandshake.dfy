/** The handshake between the pruning worker and a rollback that pauses it: two threads over
    the shared threshold, ceiling, cursor and root, one atomic operation per step. */
module PruningHandshake {
  import opened Numbers

  /** Where the worker's loop stands, with what it has read so far. */
  datatype Worker =
    | Looping
    | ReadRoot(lower: nat)
    | ReadThreshold(lower: nat, threshold: nat)
    | Chosen(lower: nat, upper: nat)
    | Claimed(lower: nat, upper: nat, prev: nat)  // cursor swapped, ceiling not yet re-read
    | Aborting(prev: nat)
    | Clear(lower: nat, upper: nat)               // re-read ceiling allows the pass
    | Deleting(lower: nat, upper: nat)            // root advanced, deletions not yet committed

  /** Where the rolling-back thread stands. */
  datatype Pauser = Free | Stored(ceiling: nat) | Refused | Paused(ceiling: nat)

  /** `pruned` is the highest batch index whose data is deleted. */
  datatype State = State(threshold: nat, ceiling: nat, cursor: nat, root: nat, pruned: nat, worker: Worker,
                         pauser: Pauser)

  datatype Event =
    | WorkerStep
    | SetThreshold(threshold: nat)
    | Pause(ceiling: nat)
    | CheckCursor
    | GiveUp
    | Unpause
    | ResetRoot                       // rolled back to the genesis state
    | InitRoot(first: nat)            // the first batch after that

  function Pred(n: nat): nat {
    if n == 0 then 0 else n - 1
  }

  function StepWorker(s: State): State {
    match s.worker
    case Looping => s.(worker := ReadRoot(s.root))
    case ReadRoot(lower) => s.(worker := ReadThreshold(lower, s.threshold))
    case ReadThreshold(lower, threshold) =>
      var upper := Pred(Min(threshold, s.ceiling));
      s.(worker := if upper >= lower && lower > 0 then Chosen(lower, upper) else Looping)
    case Chosen(lower, upper) => s.(cursor := upper, worker := Claimed(lower, upper, s.cursor))
    case Claimed(lower, upper, prev) => s.(worker := if s.ceiling <= upper then Aborting(prev) else Clear(lower, upper))
    case Aborting(prev) => s.(cursor := prev, worker := Looping)
    case Clear(lower, upper) => s.(root := upper + 1, worker := Deleting(lower, upper))
    case Deleting(lower, upper) => s.(pruned := if s.pruned < upper then upper else s.pruned, worker := Looping)
  }

  /** The rolling-back thread resets the root only under its pause at 0, and gives it a fresh
      batch, which is above everything deleted. */
  predicate Enabled(s: State, e: Event) {
    match e
    case WorkerStep => true
    case SetThreshold(_) => true
    case Pause(c) => s.pauser.Free? && c < U64_MAX
    case CheckCursor => s.pauser.Stored?
    case GiveUp => s.pauser.Refused?
    case Unpause => s.pauser.Paused?
    case ResetRoot => s.pauser == Paused(0)
    case InitRoot(first) => s.pauser.Free? && s.root == 0 && first > s.pruned
  }

  function Apply(s: State, e: Event): State
    requires Enabled(s, e)
  {
    match e
    case WorkerStep => StepWorker(s)
    case SetThreshold(t) => s.(threshold := if s.threshold < t then t else s.threshold)
    case Pause(c) => s.(ceiling := c, pauser := Stored(c))
    case CheckCursor => s.(pauser := if s.cursor <= s.pauser.ceiling then Paused(s.pauser.ceiling) else Refused)
    case GiveUp => s.(ceiling := U64_MAX, pauser := Free)
    case Unpause => s.(ceiling := U64_MAX, pauser := Free)
    case ResetRoot => s.(root := 0)
    case InitRoot(first) => s.(root := first)
  }

  /** A worker started over the persisted root. */
  function Start(root: nat): State {
    State(root, U64_MAX, Pred(root), root, Pred(root), Looping, Free)
  }

  // ---- What every step keeps ----

  /** The cursor to fall back to is at least everything deleted. */
  ghost predicate CursorCovers(s: State) {
    match s.worker
    case Claimed(_, upper, prev) => s.cursor == upper && s.pruned <= prev
    case Aborting(prev) => s.pruned <= prev && s.pruned <= s.cursor
    case Clear(_, upper) => s.cursor == upper && s.pruned <= upper
    case Deleting(_, upper) => s.cursor == upper && s.pruned <= upper
    case _ => s.pruned <= s.cursor
  }

  /** A pass starts above everything deleted. */
  ghost predicate PassIsNew(s: State) {
    && (s.root == 0 || s.root > s.pruned || s.worker.Deleting?)
    && match s.worker
       case Looping => true
       case ReadRoot(lower) => lower == 0 || lower > s.pruned
       case ReadThreshold(lower, _) => lower == 0 || lower > s.pruned
       case Chosen(lower, upper) => s.pruned < lower <= upper
       case Claimed(lower, upper, _) => s.pruned < lower <= upper
       case Aborting(_) => true
       case Clear(lower, upper) => s.pruned < lower <= upper
       case Deleting(lower, upper) => s.pruned < lower <= upper < s.root
  }

  /** While paused at `c`, nothing above `c` is deleted or past the point of no return. */
  ghost predicate PauseHolds(s: State) {
    match s.pauser
    case Free => s.ceiling == U64_MAX
    case Stored(c) => s.ceiling == c
    case Refused => true
    case Paused(c) =>
      && s.ceiling == c && s.pruned <= c
      && (s.worker.Clear? || s.worker.Deleting? ==> s.worker.upper <= c)
  }

  ghost predicate Inv(s: State) {
    CursorCovers(s) && PassIsNew(s) && PauseHolds(s)
  }

  lemma StartInv(root: nat)
    ensures Inv(Start(root))
  {
  }

  lemma StepKeepsInv(s: State, e: Event)
    requires Inv(s) && Enabled(s, e)
    ensures Inv(Apply(s, e))
  {
    if e.WorkerStep? {
      WorkerKeepsInv(s);
    } else {
      OtherKeepsInv(s, e);
    }
  }

  lemma WorkerKeepsInv(s: State)
    requires Inv(s)
    ensures Inv(StepWorker(s))
  {
    match s.worker
    case Looping =>
    case ReadRoot(_) =>
    case ReadThreshold(_, _) =>
    case Chosen(_, _) =>
    case Claimed(_, _, _) =>
    case Aborting(_) =>
    case Clear(_, _) =>
    case Deleting(_, _) =>
  }

  lemma OtherKeepsInv(s: State, e: Event)
    requires Inv(s) && Enabled(s, e) && !e.WorkerStep?
    ensures Inv(Apply(s, e))
  {
    match e
    case SetThreshold(_) =>
    case Pause(_) =>
    case CheckCursor =>
    case GiveUp =>
    case Unpause =>
    case ResetRoot =>
    case InitRoot(_) =>
  }

  /** A run of both threads in any interleaving. */
  ghost predicate IsRun(root: nat, states: seq<State>, events: seq<Event>) {
    && |states| == |events| + 1 && states[0] == Start(root)
    && forall i :: 0 <= i < |events| ==> Enabled(states[i], events[i]) && states[i + 1] == Apply(states[i], events[i])
  }

  lemma {:induction false} RunKeepsInv(root: nat, states: seq<State>, events: seq<Event>, i: nat)
    requires IsRun(root, states, events) && i < |states|
    ensures Inv(states[i])
  {
    if i == 0 {
      StartInv(root);
    } else {
      RunKeepsInv(root, states, events, i - 1);
      StepKeepsInv(states[i - 1], events[i - 1]);
    }
  }

  /** From the moment a pause at `c` succeeds until it is lifted, no batch above `c` has been
      deleted and none will be, whatever pass was under way. */
  lemma PausedMeansSafe(root: nat, states: seq<State>, events: seq<Event>, i: nat, j: nat, c: nat)
    requires IsRun(root, states, events) && i <= j < |states|
    requires forall k :: i <= k <= j ==> states[k].pauser == Paused(c)
    ensures states[j].pruned <= c
    ensures states[j].worker.Clear? || states[j].worker.Deleting? ==> states[j].worker.upper <= c
  {
    RunKeepsInv(root, states, events, j);
  }

  /** `n` steps of the worker in a row. */
  function Steps(s: State, n: nat): State {
    if n == 0 then s else StepWorker(Steps(s, n - 1))
  }

  /** Left alone, the worker does its work: with batches below the threshold it deletes exactly up
      to the last of them and moves the root right behind it; without, it changes nothing. */
  lemma PassPrunesUpToTheThreshold(s: State)
    requires Inv(s) && s.worker.Looping? && s.pauser.Free? && s.threshold < U64_MAX
    ensures s.root > 0 && s.threshold > s.root ==>
              var t := Steps(s, 7);
              && t.worker == Looping && t.pruned == s.threshold - 1 && t.root == s.threshold
              && t.cursor == s.threshold - 1 && t.threshold == s.threshold
    ensures s.root == 0 || s.threshold <= s.root ==> Steps(s, 3) == s
  {
    assert Steps(s, 1) == StepWorker(s);
    assert Steps(s, 2) == StepWorker(Steps(s, 1)) && Steps(s, 3) == StepWorker(Steps(s, 2));
    assert Steps(s, 4) == StepWorker(Steps(s, 3)) && Steps(s, 5) == StepWorker(Steps(s, 4));
    assert Steps(s, 6) == StepWorker(Steps(s, 5)) && Steps(s, 7) == StepWorker(Steps(s, 6));
  }

  /** A pause is granted exactly if the claimed cursor is not above its ceiling; a pass that was
      claimed but not cleared when the pause came is called off, and then only what was claimed
      before it counts. */
  lemma PauseIsGrantedExactlyWhen(s: State, c: nat)
    requires Inv(s) && Enabled(s, Pause(c))
    ensures var t := Apply(s, Pause(c));
            Apply(t, CheckCursor).pauser == if s.cursor <= c then Paused(c) else Refused
    ensures s.worker.Claimed? && s.worker.upper >= c ==>
              var t := Steps(Apply(s, Pause(c)), 2);
              && t.worker == Looping && t.root == s.root && t.pruned == s.pruned && t.pauser == Stored(c)
              && (Apply(t, CheckCursor).pauser == Paused(c) <==> s.worker.prev <= c)
  {
    var t := Apply(s, Pause(c));
    assert Steps(t, 1) == StepWorker(t) && Steps(t, 2) == StepWorker(Steps(t, 1));
  }
}
