/** Each step keeps the stages of every access. */
module SchedSteps {
  import opened Options
  import opened SchedProgram
  import opened SchedMachine
  import opened SchedSafety

  // ---- Accesses a step does not touch ----

  /** Slots and tasks of `x` are the same in both states. */
  ghost predicate SameAt(s: State, t: State, x: Id) {
    && (x in s.read <==> x in t.read) && (x in s.read ==> s.read[x] == t.read[x])
    && (x in s.written <==> x in t.written) && (x in s.written ==> s.written[x] == t.written[x])
    && forall task: Task :: task.a == x ==> (task in s.tasks <==> task in t.tasks)
  }

  /** A successor of `p` sees the same of it. */
  ghost predicate SameLink(s: State, t: State, p: Id) {
    && (p in s.written <==> p in t.written)
    && (p in s.next <==> p in t.next) && (p in s.next ==> s.next[p] == t.next[p])
    && forall v :: (NoteWritten(p, v) in s.tasks <==> NoteWritten(p, v) in t.tasks)
                   && (HandOver(p, v) in s.tasks <==> HandOver(p, v) in t.tasks)
  }

  ghost predicate SameDiffs(pr: Program, s: State, t: State, x: Id)
    requires IsAccess(pr, x)
  {
    var d := (BatchOf(pr, x), ResourceOf(pr, x));
    && (Head(pr, x) ==> (d in s.diffRead <==> d in t.diffRead) && (d in s.diffRead ==> s.diffRead[d] == t.diffRead[d]))
    && (Tail(pr, x) ==> (d in s.diffWritten <==> d in t.diffWritten)
                        && (d in s.diffWritten ==> s.diffWritten[d] == t.diffWritten[d]))
  }

  ghost predicate SameDiffMaps(s: State, t: State) {
    s.diffRead == t.diffRead && s.diffWritten == t.diffWritten
  }

  lemma SameMapsSameDiffs(pr: Program, s: State, t: State, x: Id)
    requires IsAccess(pr, x) && SameDiffMaps(s, t)
    ensures SameDiffs(pr, s, t, x)
  {
    hide Head;
    hide Tail;
  }

  ghost predicate SameNext(s: State, t: State, x: Id) {
    && (x in t.next ==> x in s.next && s.next[x] == t.next[x])
    && (x in t.next ==> Connect(t.next[x]) in s.tasks || Connect(t.next[x]) !in t.tasks)
  }

  ghost predicate SameRun(s: State, t: State) {
    s.evictions == t.evictions && s.committed <= t.committed
  }

  lemma ReadStageKept(pr: Program, s: State, t: State, x: Id)
    requires IsAccess(pr, x) && ReadStage(pr, s, x) && SameRun(s, t) && SameAt(s, t, x)
    requires Link(pr, s, x).Some? ==> SameLink(s, t, Link(pr, s, x).value)
    ensures ReadStage(pr, t, x)
  {
    hide Serial;
    hide Prev;
  }

  lemma WriteStageKept(pr: Program, s: State, t: State, x: Id)
    requires IsAccess(pr, x) && WriteStage(pr, s, x) && SameAt(s, t, x)
    requires x.tx in s.executed <==> x.tx in t.executed
    ensures WriteStage(pr, t, x)
  {
    hide Serial;
  }

  lemma DiffStageKept(pr: Program, s: State, t: State, x: Id)
    requires IsAccess(pr, x) && DiffStage(pr, s, x) && SameAt(s, t, x) && SameDiffs(pr, s, t, x)
    ensures DiffStage(pr, t, x)
  {
    hide Serial;
    hide Head;
    hide Tail;
  }

  lemma NextStageKept(pr: Program, s: State, t: State, x: Id)
    requires IsAccess(pr, x) && NextStage(pr, s, x) && EvictStage(pr, s, x) && SameRun(s, t) && SameNext(s, t, x)
    ensures NextStage(pr, t, x) && EvictStage(pr, t, x)
  {
    hide Prev;
  }

  /** A scheduled access whose surroundings are the same keeps its stages. */
  lemma AllKept(pr: Program, s: State, t: State, x: Id)
    requires IsAccess(pr, x) && AccessInv(pr, s, x) && SameRun(s, t) && SameAt(s, t, x)
    requires x in s.next <==> x in t.next
    requires BatchOf(pr, x) < Scheduled(s) && Link(pr, s, x).Some? ==> SameLink(s, t, Link(pr, s, x).value)
    requires x.tx in s.executed <==> x.tx in t.executed
    requires SameDiffs(pr, s, t, x) && SameNext(s, t, x)
    ensures AccessInv(pr, t, x)
  {
    if BatchOf(pr, x) < Scheduled(s) {
      ReadStageKept(pr, s, t, x);
      WriteStageKept(pr, s, t, x);
      DiffStageKept(pr, s, t, x);
      NextStageKept(pr, s, t, x);
      hide *;
    }
  }

  // ---- Steps that only change the access itself ----

  /** What a step on `a` may rely on for its effect on `x`. */
  ghost predicate Around(pr: Program, s: State, task: Task, x: Id) {
    && WellFormed(pr) && |s.pending| == |pr.txs|
    && task in s.tasks && TaskInv(pr, s, task) && IsAccess(pr, x)
    && AccessInv(pr, s, task.a) && AccessInv(pr, s, x)
  }

  /** Slots and tasks of accesses other than `a` are the same. */
  ghost predicate SameElsewhere(s: State, t: State, a: Id) {
    && SameRun(s, t) && s.executed == t.executed
    && (forall x :: x != a ==> (x in s.read <==> x in t.read) && (x in s.read ==> s.read[x] == t.read[x]))
    && (forall x :: x != a ==>
          (x in s.written <==> x in t.written) && (x in s.written ==> s.written[x] == t.written[x]))
    && (forall task: Task :: task.a != a ==> (task in s.tasks <==> task in t.tasks))
  }

  /** Only `a`'s own slots and reading tasks changed. */
  ghost predicate LocalStep(s: State, t: State, a: Id) {
    && SameElsewhere(s, t, a) && s.next == t.next && s.written == t.written
    && (forall task: Task :: task.Connect? || task.NoteWritten? || task.HandOver? ==>
          (task in t.tasks ==> task in s.tasks) && (task in s.tasks && !task.Connect? ==> task in t.tasks))
  }

  lemma LocalStepKeepsOthers(pr: Program, s: State, t: State, a: Id, x: Id)
    requires IsAccess(pr, x) && AccessInv(pr, s, x) && LocalStep(s, t, a) && x != a && SameDiffs(pr, s, t, x)
    ensures AccessInv(pr, t, x)
  {
    hide AccessInv;
    hide SameDiffs;
    AllKept(pr, s, t, x);
  }

  lemma CheckIsLocal(pr: Program, s: State, a: Id)
    requires IsAccess(pr, a) && |s.pending| == |pr.txs|
    ensures LocalStep(s, DoCheck(pr, s, a), a) && SameDiffMaps(s, DoCheck(pr, s, a))
  {
    hide Link;
    hide Latest;
    hide SerialRead;
    hide Serial;
    hide Prev;
    hide Head;
    hide Tail;
    hide WellFormed;
  }

  lemma CheckOwn(pr: Program, s: State, a: Id)
    requires Around(pr, s, Check(a), a) && BatchOf(pr, a) < Scheduled(s)
    requires Link(pr, s, a).Some? ==> AccessInv(pr, s, Link(pr, s, a).value)
    ensures var t := DoCheck(pr, s, a);
            ReadStage(pr, t, a) && WriteStage(pr, t, a) && DiffStage(pr, t, a) && NextStage(pr, t, a) &&
            EvictStage(pr, t, a)
  {
    hide Serial;
    hide Prev;
    hide Head;
    hide Tail;
    hide WellFormed;
    ChainCarriesValues(pr, a);
  }

  lemma DiskReadIsLocal(pr: Program, s: State, a: Id)
    requires IsAccess(pr, a) && |s.pending| == |pr.txs|
    ensures LocalStep(s, DoDiskRead(pr, s, a), a) && SameDiffMaps(s, DoDiskRead(pr, s, a))
  {
    hide Link;
    hide Latest;
    hide SerialRead;
    hide Serial;
    hide Prev;
    hide Head;
    hide Tail;
    hide WellFormed;
  }

  lemma DiskReadOwn(pr: Program, s: State, a: Id)
    requires Around(pr, s, DiskRead(a), a) && BatchOf(pr, a) < Scheduled(s)
    requires Latest(pr, s, ResourceOf(pr, a), s.committed) == SerialRead(pr, a)
    ensures var t := DoDiskRead(pr, s, a);
            ReadStage(pr, t, a) && WriteStage(pr, t, a) && DiffStage(pr, t, a) && NextStage(pr, t, a) &&
            EvictStage(pr, t, a)
  {
    hide Serial;
    hide Prev;
    hide Head;
    hide Tail;
    hide WellFormed;
    hide Latest;
  }

  lemma SetReadIsLocal(pr: Program, s: State, a: Id, v: Value, direct: bool)
    requires IsAccess(pr, a) && |s.pending| == |pr.txs|
    ensures LocalStep(s, DoSetRead(s, a, v, direct), a) && SameDiffMaps(s, DoSetRead(s, a, v, direct))
  {
    hide Link;
    hide Latest;
    hide SerialRead;
    hide Serial;
    hide Prev;
    hide Head;
    hide Tail;
    hide WellFormed;
  }

  lemma SetReadOwn(pr: Program, s: State, a: Id, v: Value, direct: bool)
    requires Around(pr, s, SetRead(a, v, direct), a) && BatchOf(pr, a) < Scheduled(s)
    ensures var t := DoSetRead(s, a, v, direct);
            ReadStage(pr, t, a) && WriteStage(pr, t, a) && DiffStage(pr, t, a) && NextStage(pr, t, a) &&
            EvictStage(pr, t, a)
  {
    hide Serial;
    hide Prev;
    hide Head;
    hide Tail;
    hide WellFormed;
  }

  lemma FinishIsLocal(pr: Program, s: State, a: Id)
    requires IsAccess(pr, a) && |s.pending| == |pr.txs|
    ensures LocalStep(s, DoFinish(s, a), a) && SameDiffMaps(s, DoFinish(s, a))
  {
    hide Link;
    hide Latest;
    hide SerialRead;
    hide Serial;
    hide Prev;
    hide Head;
    hide Tail;
    hide WellFormed;
  }

  lemma FinishOwn(pr: Program, s: State, a: Id)
    requires Around(pr, s, Finish(a), a) && BatchOf(pr, a) < Scheduled(s)
    ensures var t := DoFinish(s, a);
            ReadStage(pr, t, a) && WriteStage(pr, t, a) && DiffStage(pr, t, a) && NextStage(pr, t, a) &&
            EvictStage(pr, t, a)
  {
    hide Serial;
    hide Prev;
    hide Head;
    hide Tail;
    hide WellFormed;
  }

  lemma NoteReadIsLocal(pr: Program, s: State, a: Id, v: Value)
    requires IsAccess(pr, a) && |s.pending| == |pr.txs|
    ensures LocalStep(s, DoNoteRead(pr, s, a, v), a)
  {
    hide Link;
    hide Latest;
    hide SerialRead;
    hide Serial;
    hide Prev;
    hide Head;
    hide Tail;
    hide WellFormed;
  }

  lemma NoteReadOwn(pr: Program, s: State, a: Id, v: Value)
    requires Around(pr, s, NoteRead(a, v), a) && BatchOf(pr, a) < Scheduled(s)
    ensures var t := DoNoteRead(pr, s, a, v);
            ReadStage(pr, t, a) && WriteStage(pr, t, a) && DiffStage(pr, t, a) && NextStage(pr, t, a) &&
            EvictStage(pr, t, a)
  {
    NoteReadOwnStages(pr, s, a, v);
    NoteReadOwnDiffs(pr, s, a, v);
    hide *;
  }

  lemma NoteReadOwnStages(pr: Program, s: State, a: Id, v: Value)
    requires Around(pr, s, NoteRead(a, v), a) && BatchOf(pr, a) < Scheduled(s)
    ensures var t := DoNoteRead(pr, s, a, v);
            ReadStage(pr, t, a) && WriteStage(pr, t, a) && NextStage(pr, t, a) && EvictStage(pr, t, a)
  {
    hide Serial;
    hide Prev;
    hide Head;
    hide Tail;
    hide DiffStage;
    hide WellFormed;
    WrittenIsResult(pr, a);
  }

  lemma NoteReadOwnDiffs(pr: Program, s: State, a: Id, v: Value)
    requires Around(pr, s, NoteRead(a, v), a) && BatchOf(pr, a) < Scheduled(s)
    ensures DiffStage(pr, DoNoteRead(pr, s, a, v), a)
  {
    hide Serial;
    hide Prev;
    hide Head;
    hide Tail;
    hide ReadStage;
    hide NextStage;
    hide EvictStage;
    hide WellFormed;
  }

  lemma NoteReadDiffs(pr: Program, s: State, a: Id, v: Value, x: Id)
    requires WellFormed(pr) && IsAccess(pr, a) && IsAccess(pr, x) && x != a && |s.pending| == |pr.txs|
    ensures SameDiffs(pr, s, DoNoteRead(pr, s, a, v), x)
  {
    hide Serial;
    hide Prev;
    hide Head;
    hide Tail;
    hide WellFormed;
    if Head(pr, a) && Head(pr, x) && BatchOf(pr, a) == BatchOf(pr, x) && ResourceOf(pr, a) == ResourceOf(pr, x) {
      HeadIsUnique(pr, a, x);
    }
  }

  // ---- Steps a successor can notice ----

  /** Only `a`'s own slots and tasks changed, its written side included. */
  ghost predicate WritingStep(s: State, t: State, a: Id) {
    && SameElsewhere(s, t, a) && s.next == t.next
    && (forall task: Task :: task.Connect? && task in t.tasks ==> task in s.tasks)
  }

  lemma WritingStepKeepsOthers(pr: Program, s: State, t: State, a: Id, x: Id)
    requires IsAccess(pr, x) && AccessInv(pr, s, x) && WritingStep(s, t, a) && x != a && SameDiffs(pr, s, t, x)
    requires Link(pr, s, x) != Some(a) || BatchOf(pr, x) >= Scheduled(s)
    ensures AccessInv(pr, t, x)
  {
    hide AccessInv;
    hide SameDiffs;
    AllKept(pr, s, t, x);
  }

  lemma SetWrittenIsWriting(pr: Program, s: State, a: Id, v: Value)
    requires IsAccess(pr, a) && |s.pending| == |pr.txs|
    ensures WritingStep(s, DoSetWritten(s, a, v), a) && SameDiffMaps(s, DoSetWritten(s, a, v))
  {
    hide Link;
    hide Latest;
    hide SerialRead;
    hide Serial;
    hide Prev;
    hide Head;
    hide Tail;
    hide WellFormed;
  }

  lemma SetWrittenOwn(pr: Program, s: State, a: Id, v: Value)
    requires Around(pr, s, SetWritten(a, v), a) && BatchOf(pr, a) < Scheduled(s)
    ensures var t := DoSetWritten(s, a, v);
            ReadStage(pr, t, a) && WriteStage(pr, t, a) && DiffStage(pr, t, a) && NextStage(pr, t, a) &&
            EvictStage(pr, t, a)
  {
    hide Serial;
    hide Prev;
    hide Head;
    hide Tail;
    hide WellFormed;
  }

  lemma SetWrittenSuccessor(pr: Program, s: State, a: Id, v: Value, x: Id)
    requires Around(pr, s, SetWritten(a, v), x) && BatchOf(pr, x) < Scheduled(s) && x != a && Link(pr, s, x) == Some(a)
    ensures var t := DoSetWritten(s, a, v);
            ReadStage(pr, t, x) && WriteStage(pr, t, x) && DiffStage(pr, t, x) && NextStage(pr, t, x) &&
            EvictStage(pr, t, x)
  {
    hide Serial;
    hide Prev;
    hide Head;
    hide Tail;
    hide WellFormed;
  }

  lemma NoteWrittenIsWriting(pr: Program, s: State, a: Id, v: Value)
    requires IsAccess(pr, a) && |s.pending| == |pr.txs|
    ensures WritingStep(s, DoNoteWritten(pr, s, a, v), a)
  {
    hide Link;
    hide Latest;
    hide SerialRead;
    hide Serial;
    hide Prev;
    hide Head;
    hide Tail;
    hide WellFormed;
  }

  lemma NoteWrittenOwn(pr: Program, s: State, a: Id, v: Value)
    requires Around(pr, s, NoteWritten(a, v), a) && BatchOf(pr, a) < Scheduled(s)
    ensures var t := DoNoteWritten(pr, s, a, v);
            ReadStage(pr, t, a) && WriteStage(pr, t, a) && DiffStage(pr, t, a) && NextStage(pr, t, a) &&
            EvictStage(pr, t, a)
  {
    hide Serial;
    hide Prev;
    hide Head;
    hide Tail;
    hide WellFormed;
  }

  lemma NoteWrittenSuccessor(pr: Program, s: State, a: Id, v: Value, x: Id)
    requires Around(pr, s, NoteWritten(a, v), x) && BatchOf(pr, x) < Scheduled(s) && x != a && Link(pr, s, x) == Some(a)
    requires SameDiffs(pr, s, DoNoteWritten(pr, s, a, v), x)
    ensures var t := DoNoteWritten(pr, s, a, v);
            ReadStage(pr, t, x) && WriteStage(pr, t, x) && DiffStage(pr, t, x) && NextStage(pr, t, x) &&
            EvictStage(pr, t, x)
  {
    hide Serial;
    hide Prev;
    hide Head;
    hide Tail;
    hide WellFormed;
  }

  lemma NoteWrittenDiffs(pr: Program, s: State, a: Id, v: Value, x: Id)
    requires WellFormed(pr) && IsAccess(pr, a) && IsAccess(pr, x) && x != a && |s.pending| == |pr.txs|
    ensures SameDiffs(pr, s, DoNoteWritten(pr, s, a, v), x)
  {
    hide Serial;
    hide Prev;
    hide Head;
    hide Tail;
    hide WellFormed;
    if Tail(pr, a) && Tail(pr, x) && BatchOf(pr, a) == BatchOf(pr, x) && ResourceOf(pr, a) == ResourceOf(pr, x) {
      TailIsUnique(pr, a, x);
    }
  }

  /** Besides `a`'s own tasks only its successor's changed. */
  ghost predicate HandOverStep(s: State, t: State, a: Id) {
    && SameRun(s, t) && s.read == t.read && s.written == t.written && s.executed == t.executed
    && s.diffRead == t.diffRead && s.diffWritten == t.diffWritten
    && (forall x :: x != a ==> (x in s.next <==> x in t.next) && (x in s.next ==> s.next[x] == t.next[x]))
    && (forall task: Task :: task.a != a && !(a in s.next && task.a == s.next[a]) ==>
          (task in s.tasks <==> task in t.tasks))
    && (forall task: Task :: !task.SetRead? && task.a != a ==> (task in s.tasks <==> task in t.tasks))
    && (forall task: Task :: task.Connect? && task in t.tasks ==> task in s.tasks)
  }

  lemma HandOverIsHandOver(pr: Program, s: State, a: Id, v: Value)
    ensures HandOverStep(s, DoHandOver(s, a, v), a)
  {
  }

  lemma HandOverKeepsOthers(pr: Program, s: State, t: State, a: Id, x: Id)
    requires IsAccess(pr, x) && AccessInv(pr, s, x) && HandOverStep(s, t, a) && x != a
    requires Link(pr, s, x) != Some(a) || BatchOf(pr, x) >= Scheduled(s)
    requires !(a in s.next && x == s.next[a])
    ensures AccessInv(pr, t, x)
  {
    hide AccessInv;
    hide Head;
    hide Tail;
    AllKept(pr, s, t, x);
  }

  lemma HandOverOwn(pr: Program, s: State, a: Id, v: Value)
    requires Around(pr, s, HandOver(a, v), a) && BatchOf(pr, a) < Scheduled(s)
    ensures var t := DoHandOver(s, a, v);
            ReadStage(pr, t, a) && WriteStage(pr, t, a) && DiffStage(pr, t, a) && NextStage(pr, t, a) &&
            EvictStage(pr, t, a)
  {
    hide Serial;
    hide Prev;
    hide Head;
    hide Tail;
    hide WellFormed;
  }

  lemma HandOverSuccessor(pr: Program, s: State, a: Id, v: Value, x: Id)
    requires Around(pr, s, HandOver(a, v), x) && BatchOf(pr, x) < Scheduled(s) && x != a && Link(pr, s, x) == Some(a)
    ensures var t := DoHandOver(s, a, v);
            ReadStage(pr, t, x) && WriteStage(pr, t, x) && DiffStage(pr, t, x) && NextStage(pr, t, x) &&
            EvictStage(pr, t, x)
  {
    hide Serial;
    hide Prev;
    hide Head;
    hide Tail;
    hide WellFormed;
    hide ReadStage;
    HandOverReads(pr, s, a, v, x);
    if a in s.next {
      PrevIsInjective(pr, s.next[a], x);
    }
  }

  lemma HandOverReads(pr: Program, s: State, a: Id, v: Value, x: Id)
    requires Around(pr, s, HandOver(a, v), x) && BatchOf(pr, x) < Scheduled(s) && x != a && Link(pr, s, x) == Some(a)
    ensures ReadStage(pr, DoHandOver(s, a, v), x)
  {
    hide Serial;
    hide Prev;
    hide Head;
    hide Tail;
    hide WellFormed;
    ChainCarriesValues(pr, x);
    if a in s.next {
      PrevIsInjective(pr, s.next[a], x);
    }
  }

  // ---- Connecting ----

  /** Only `a`'s tasks and its predecessor's `next` changed. */
  ghost predicate ConnectStep(s: State, t: State, a: Id, p: Option<Id>) {
    && SameRun(s, t) && s.read == t.read && s.written == t.written && s.executed == t.executed
    && s.diffRead == t.diffRead && s.diffWritten == t.diffWritten
    && (forall task: Task :: task.a != a ==> (task in s.tasks <==> task in t.tasks))
    && (forall task: Task :: task.NoteWritten? || task.HandOver? ==> (task in s.tasks <==> task in t.tasks))
    && (forall task: Task :: task.Connect? && task in t.tasks ==> task in s.tasks)
    && (forall q :: Some(q) != p ==> (q in s.next <==> q in t.next) && (q in s.next ==> s.next[q] == t.next[q]))
  }

  lemma ConnectIsConnecting(pr: Program, s: State, a: Id)
    requires IsAccess(pr, a) && |s.pending| == |pr.txs|
    ensures ConnectStep(s, DoConnect(pr, s, a), a, Link(pr, s, a))
  {
    hide Link;
    hide Latest;
    hide SerialRead;
    hide Serial;
    hide Prev;
    hide Head;
    hide Tail;
    hide WellFormed;
  }

  lemma ConnectOwn(pr: Program, s: State, a: Id)
    requires Around(pr, s, Connect(a), a) && BatchOf(pr, a) < Scheduled(s)
    requires Link(pr, s, a).Some? ==> Link(pr, s, a).value != a
    ensures var t := DoConnect(pr, s, a);
            ReadStage(pr, t, a) && WriteStage(pr, t, a) && DiffStage(pr, t, a) && NextStage(pr, t, a) &&
            EvictStage(pr, t, a)
  {
    hide Serial;
    hide Prev;
    hide Head;
    hide Tail;
    hide WellFormed;
  }

  lemma ConnectPredecessor(pr: Program, s: State, a: Id, x: Id)
    requires Around(pr, s, Connect(a), x) && BatchOf(pr, x) < Scheduled(s) && x != a && Link(pr, s, a) == Some(x)
    requires Link(pr, s, x) != Some(x)
    ensures var t := DoConnect(pr, s, a);
            ReadStage(pr, t, x) && WriteStage(pr, t, x) && DiffStage(pr, t, x) && NextStage(pr, t, x) &&
            EvictStage(pr, t, x)
  {
    hide Serial;
    hide Prev;
    hide Head;
    hide Tail;
    hide WellFormed;
  }

  lemma ConnectKeepsOthers(pr: Program, s: State, t: State, a: Id, x: Id)
    requires WellFormed(pr) && IsAccess(pr, a) && IsAccess(pr, x) && AccessInv(pr, s, x) && x != a
    requires ConnectStep(s, t, a, Link(pr, s, a)) && Link(pr, s, a) != Some(x)
    ensures AccessInv(pr, t, x)
  {
    hide AccessInv;
    hide WellFormed;
    hide Prev;
    hide Tail;
    hide Head;
    if Link(pr, s, x).Some? && Link(pr, s, a) == Link(pr, s, x) {
      PrevIsInjective(pr, a, x);
    }
    AllKept(pr, s, t, x);
  }

  // ---- Executing, scheduling, committing ----

  lemma ExecuteKeeps(pr: Program, s: State, u: nat, x: Id)
    requires WellFormed(pr) && u < |pr.txs| && |s.pending| == |pr.txs| && IsAccess(pr, x) && AccessInv(pr, s, x)
    requires pr.txs[u].batch < Scheduled(s) && Inputs(pr, s, u) == SerialInputs(pr, u)
    requires forall k :: 0 <= k < |pr.txs[u].accesses| ==> Noted(pr, s, Id(u, k))
    requires u !in s.executed
    ensures AccessInv(pr, Apply(pr, s, Execute(u)), x)
  {
    var t := Apply(pr, s, Execute(u));
    if x.tx == u {
      ExecuteOwn(pr, s, u, x);
    } else {
      ExecuteSame(pr, s, u, x);
      hide Outputs;
      AllKept(pr, s, t, x);
    }
  }

  lemma ExecuteSame(pr: Program, s: State, u: nat, x: Id)
    requires u < |pr.txs| && |s.pending| == |pr.txs| && IsAccess(pr, x) && x.tx != u
    ensures var t := Apply(pr, s, Execute(u));
            && SameRun(s, t) && SameAt(s, t, x) && SameDiffs(pr, s, t, x) && SameNext(s, t, x)
            && (x in s.next <==> x in t.next) && (x.tx in s.executed <==> x.tx in t.executed)
            && (forall p :: SameLink(s, t, p))
  {
    hide Result;
    hide Inputs;
    hide Head;
    hide Tail;
  }

  lemma ExecuteOwn(pr: Program, s: State, u: nat, x: Id)
    requires WellFormed(pr) && u < |pr.txs| && |s.pending| == |pr.txs| && IsAccess(pr, x) && AccessInv(pr, s, x)
    requires pr.txs[u].batch < Scheduled(s) && Inputs(pr, s, u) == SerialInputs(pr, u)
    requires x.tx == u && Noted(pr, s, x) && u !in s.executed
    ensures AccessInv(pr, Apply(pr, s, Execute(u)), x)
  {
    hide Serial;
    hide Prev;
    hide Head;
    hide Tail;
    hide WellFormed;
    hide Result;
    WrittenIsResult(pr, x);
  }

  lemma CommitKeeps(pr: Program, s: State, x: Id)
    requires IsAccess(pr, x) && AccessInv(pr, s, x) && |s.pending| == |pr.txs|
    ensures AccessInv(pr, Apply(pr, s, Commit), x)
  {
    hide AccessInv;
    hide Head;
    hide Tail;
    AllKept(pr, s, Apply(pr, s, Commit), x);
  }

  lemma ScheduleKeepsOld(pr: Program, s: State, evicted: set<nat>, x: Id)
    requires IsAccess(pr, x) && AccessInv(pr, s, x) && |s.pending| == |pr.txs| && BatchOf(pr, x) < Scheduled(s)
    requires x in s.next ==> IsAccess(pr, s.next[x])
    ensures AccessInv(pr, Apply(pr, s, Schedule(evicted)), x)
  {
    hide Serial;
    hide Prev;
    hide Head;
    hide Tail;
    hide WellFormed;
    hide FreeTxs;
  }

  lemma ScheduleBears(pr: Program, s: State, evicted: set<nat>, x: Id)
    requires WellFormed(pr) && IsAccess(pr, x) && Unborn(pr, s, x) && |s.pending| == |pr.txs| &&
             BatchOf(pr, x) == Scheduled(s)
    requires forall r :: r in evicted ==> Evictable(pr, s, r)
    requires (BatchOf(pr, x), ResourceOf(pr, x)) !in s.diffRead && (BatchOf(pr, x), ResourceOf(pr, x)) !in s.diffWritten
    ensures AccessInv(pr, Apply(pr, s, Schedule(evicted)), x)
  {
  }

  lemma ScheduleKeepsUnborn(pr: Program, s: State, evicted: set<nat>, x: Id)
    requires IsAccess(pr, x) && Unborn(pr, s, x) && |s.pending| == |pr.txs| && BatchOf(pr, x) > Scheduled(s)
    ensures AccessInv(pr, Apply(pr, s, Schedule(evicted)), x)
  {
    hide Serial;
    hide Prev;
    hide Head;
    hide Tail;
    hide WellFormed;
    hide FreeTxs;
  }
}
