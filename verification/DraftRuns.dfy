/**
 What holds over whole runs of one draft layer: refinement of a plain value-level layer, isolation of
 snapshots, the outcome of every asynchronous update, and completion of all of them.
 */
module DraftRuns {
  import opened Basics
  import opened DraftStore
  import opened DraftProtocol

  /**
   Step `i` of a run. It is constrained only from states where it is defined, that is, where the
   invariant holds; that it always does is `RunKeepsInv`.
   */
  ghost predicate StepAt<T>(trace: seq<State<T>>, acts: seq<Action<T>>, i: nat)
    requires i < |acts| && |trace| == |acts| + 1
  {
    Enabled(trace[i], acts[i]) && (Inv(trace[i]) ==> trace[i + 1] == Next(trace[i], acts[i]))
  }

  /** Any interleaving, of any length. */
  ghost predicate IsRun<T>(trace: seq<State<T>>, acts: seq<Action<T>>) {
    && |trace| == |acts| + 1
    && trace[0].store.committed in trace[0].store.heap
    && trace[0] == Init(trace[0].store.Committed(), trace[0].store.committed)
    && forall i | 0 <= i < |acts| :: StepAt(trace, acts, i)
  }

  lemma {:induction false} RunReachesInv<T>(trace: seq<State<T>>, acts: seq<Action<T>>, i: nat)
    requires IsRun(trace, acts) && i < |trace|
    ensures Inv(trace[i])
  {
    if i == 0 {
      InitKeepsInv(trace[0].store.Committed(), trace[0].store.committed);
    } else {
      RunReachesInv(trace, acts, i - 1);
      assert StepAt(trace, acts, i - 1);
      NextKeepsInv(trace[i - 1], acts[i - 1]);
    }
  }

  /** Every reachable state satisfies the invariant, so every step is defined and taken. */
  lemma RunKeepsInv<T>(trace: seq<State<T>>, acts: seq<Action<T>>, i: nat)
    requires IsRun(trace, acts) && i < |acts|
    ensures Inv(trace[i]) && Inv(trace[i + 1])
    ensures Enabled(trace[i], acts[i]) && trace[i + 1] == Next(trace[i], acts[i])
  {
    RunReachesInv(trace, acts, i);
    RunReachesInv(trace, acts, i + 1);
    assert StepAt(trace, acts, i);
  }

  // ---- Refinement of a layer without sharing --------------------------------------------------

  /** A layer that copies values instead of sharing cells. */
  datatype Layer<T> = Layer(committed: T, draft: Option<T>) {
    function Edit(f: T -> T): Layer<T> {
      Layer(committed, Some(f(draft.GetOr(committed))))
    }

    function Apply(): Layer<T> {
      Layer(draft.GetOr(committed), None)
    }

    function Discard(): Layer<T> {
      Layer(committed, None)
    }

    /** One indivisible asynchronous update. */
    function Update(f: T -> Option<T>): Layer<T> {
      Layer(f(committed).GetOr(committed), draft)
    }
  }

  function Abs<T>(s: Store<T>): Layer<T>
    requires s.WellFormed()
  {
    Layer(s.Committed(), if s.draft.Some? then Some(s.heap[s.draft.value].value) else None)
  }

  /** Update `t` is at its write, its closure succeeds, and nothing was committed since it read. */
  ghost predicate Writes<T>(s: State<T>, t: nat) {
    && t < |s.tasks| && s.store.committed in s.store.heap
    && s.tasks[t].pc == Editing(s.epoch) && s.tasks[t].f(s.store.Committed()).Some?
  }

  ghost function AbsNext<T>(s: State<T>, act: Action<T>): Layer<T>
    requires Inv(s) && Enabled(s, act)
  {
    var l := Abs(s.store);
    match act
    case Edit(f, _) => l.Edit(f)
    case Apply => l.Apply()
    case Discard => l.Discard()
    case Run(t, _) => if Writes(s, t) then l.Update(s.tasks[t].f) else l
    case _ => l
  }

  lemma SectionRefines<T>(s: State<T>, act: Action<T>)
    requires Inv(s) && Enabled(s, act) && (act.Edit? || act.Apply? || act.Discard?)
    ensures Next(s, act).store.WellFormed()
    ensures Abs(Next(s, act).store) == AbsNext(s, act)
  {
  }

  lemma TakeRefines<T>(s: State<T>, o: Owner, a: Addr)
    requires s.store.WellFormed() && a in s.store.heap
    ensures Take(s, o, a).store.WellFormed() && Abs(Take(s, o, a).store) == Abs(s.store)
  {
  }

  lemma UntakeRefines<T>(s: State<T>, o: Owner)
    requires StoreInv(s.store, s.held) && o in s.held
    ensures s.held[o].addr in s.store.heap && 0 < s.store.heap[s.held[o].addr].strong
    ensures Untake(s, o).store.WellFormed() && Abs(Untake(s, o).store) == Abs(s.store)
  {
    HeldIsLive(s.store, s.held, o);
  }

  lemma FinishRefines<T>(s: State<T>, t: nat, a: Addr)
    requires Inv(s) && Enabled(s, Run(t, a)) && s.tasks[t].pc.Editing?
    ensures FinishUpdate(s, t, a).store.WellFormed()
    ensures Abs(FinishUpdate(s, t, a).store) ==
            if Writes(s, t) then Abs(s.store).Update(s.tasks[t].f) else Abs(s.store)
  {
  }

  lemma OtherTaskStepsKeepStore<T>(s: State<T>, t: nat, a: Addr)
    requires Inv(s) && Enabled(s, Run(t, a))
    requires !s.tasks[t].pc.Holding? && !HoldsSnapshot(s.tasks[t].pc)
    ensures RunTask(s, t, a).store == s.store
  {
  }

  /** Copy-on-write, in-place edits and the pointer comparison are invisible. */
  lemma StepRefines<T>(s: State<T>, act: Action<T>)
    requires Inv(s) && Enabled(s, act)
    ensures Next(s, act).store.WellFormed()
    ensures Abs(Next(s, act).store) == AbsNext(s, act)
  {
    match act
    case TakeCommitted(id) => TakeRefines(s, Reader(id), s.store.committed);
    case TakeLatest(id) => TakeRefines(s, Reader(id), s.store.LatestAddr());
    case Share(from, id) => TakeRefines(s, Reader(id), s.held[Reader(from)].addr);
    case Drop(id) => UntakeRefines(s, Reader(id));
    case Edit(_, _) => SectionRefines(s, act);
    case Apply => SectionRefines(s, act);
    case Discard => SectionRefines(s, act);
    case Spawn(_) =>
    case Run(t, a) => TaskStepRefines(s, t, a);
  }

  lemma TaskStepRefines<T>(s: State<T>, t: nat, a: Addr)
    requires Inv(s) && Enabled(s, Run(t, a))
    ensures RunTask(s, t, a).store.WellFormed()
    ensures Abs(RunTask(s, t, a).store) == AbsNext(s, Run(t, a))
  {
    match s.tasks[t].pc
    case Holding => TakeRefines(s, Update(t), s.store.committed);
    case Editing(_) => FinishRefines(s, t, a);
    case Closing(_) => UntakeRefines(s, Update(t));
    case _ => OtherTaskStepsKeepStore(s, t, a);
  }

  // ---- The outcome of an update ---------------------------------------------------------------

  /** The step replaces the committed cell. */
  ghost predicate Replaces<T>(s: State<T>, act: Action<T>) {
    CommitsDraft(s, act) || (act.Run? && Writes(s, act.t))
  }

  /** The step commits a draft. */
  predicate CommitsDraft<T>(s: State<T>, act: Action<T>) {
    act.Apply? && s.store.draft.Some?
  }

  lemma EpochCountsReplacements<T>(s: State<T>, act: Action<T>)
    requires Inv(s) && Enabled(s, act)
    ensures Next(s, act).epoch == s.epoch + if Replaces(s, act) then 1 else 0
  {
  }

  /** The tasks once the notification sent by task `t`, if it sends one, has woken its receiver. */
  function TasksWokenBy<T>(s: State<T>, t: nat): seq<Task<T>>
    requires Inv(s) && t < |s.tasks|
  {
    if s.tasks[t].pc.Notifying? && s.waiters != [] then
      assert s.waiters[0] in s.waiters;
      s.tasks[s.waiters[0] := s.tasks[s.waiters[0]].(pc := Woken)]
    else s.tasks
  }

  lemma TasksAfterRun<T>(s: State<T>, t: nat, a: Addr) returns (pc: Pc)
    requires Inv(s) && Enabled(s, Run(t, a))
    ensures RunTask(s, t, a).tasks == TasksWokenBy(s, t)[t := s.tasks[t].(pc := pc)]
    ensures s.tasks[t].pc.Notifying? && s.waiters != [] ==>
              s.waiters[0] < |s.tasks| && s.waiters[0] != t && s.tasks[s.waiters[0]].pc.Parked?
  {
    assert s.waiters != [] ==> s.waiters[0] in s.waiters;
    pc := RunTask(s, t, a).tasks[t].pc;
  }

  /** A step moves its own task, and a notification also the task it wakes; closures never change. */
  lemma TasksAfter<T>(s: State<T>, act: Action<T>)
    requires Inv(s) && Enabled(s, act)
    ensures |Next(s, act).tasks| == |s.tasks| + if act.Spawn? then 1 else 0
    ensures act.Spawn? ==> Next(s, act).tasks[|s.tasks|] == Task(act.f, Start)
    ensures forall u | 0 <= u < |s.tasks| :: Next(s, act).tasks[u].f == s.tasks[u].f
    ensures forall u | 0 <= u < |s.tasks| && !s.tasks[u].pc.Parked? && !(act.Run? && act.t == u) ::
              Next(s, act).tasks[u] == s.tasks[u]
    ensures forall u | 0 <= u < |s.tasks| && s.tasks[u].pc.Parked? ::
              Next(s, act).tasks[u].pc.Parked? || Next(s, act).tasks[u].pc.Woken?
  {
    if act.Run? {
      var pc := TasksAfterRun(s, act.t, act.a);
    }
  }

  /** What one step says about a task that is editing after it. */
  lemma EditingStep<T>(s: State<T>, act: Action<T>, t: nat)
    requires Inv(s) && Enabled(s, act)
    requires t < |Next(s, act).tasks| && Next(s, act).tasks[t].pc.Editing?
    ensures Inv(Next(s, act)) && Update(t) in Next(s, act).held
    ensures Next(s, act).epoch == s.epoch + if Replaces(s, act) then 1 else 0
    ensures t < |s.tasks| && s.tasks[t].f == Next(s, act).tasks[t].f
    ensures if act.Run? && act.t == t then
              && s.tasks[t].pc == Holding && Next(s, act).tasks[t].pc == Editing(s.epoch) && !Replaces(s, act)
              && Next(s, act).held[Update(t)] == Handle(s.store.committed, s.store.Committed())
            else
              && s.tasks[t] == Next(s, act).tasks[t] && (Replaces(s, act) <==> CommitsDraft(s, act))
              && Update(t) in s.held && Next(s, act).held[Update(t)] == s.held[Update(t)]
  {
    NextKeepsInv(s, act);
    EpochCountsReplacements(s, act);
    TasksAfter(s, act);
    if act.Run? && act.t != t && t < |s.tasks| {
      assert HoldsFlag(s.tasks[t].pc) ==> !HoldsFlag(s.tasks[act.t].pc);
    }
  }

  /** The same, along a run. */
  lemma EditingBefore<T>(trace: seq<State<T>>, acts: seq<Action<T>>, j: nat, t: nat)
    requires IsRun(trace, acts) && j < |acts| && t < |trace[j + 1].tasks| && trace[j + 1].tasks[t].pc.Editing?
    ensures t < |trace[j].tasks| && trace[j].tasks[t].f == trace[j + 1].tasks[t].f
    ensures Update(t) in trace[j + 1].held
    ensures if acts[j].Run? && acts[j].t == t then
              && trace[j].tasks[t].pc == Holding && trace[j + 1].tasks[t].pc == Editing(trace[j].epoch)
              && trace[j + 1].epoch == trace[j].epoch
              && trace[j].store.committed in trace[j].store.heap
              && trace[j + 1].held[Update(t)] == Handle(trace[j].store.committed, trace[j].store.Committed())
            else
              && trace[j].tasks[t] == trace[j + 1].tasks[t]
              && Update(t) in trace[j].held && trace[j + 1].held[Update(t)] == trace[j].held[Update(t)]
              && trace[j + 1].epoch == trace[j].epoch + if CommitsDraft(trace[j], acts[j]) then 1 else 0
  {
    RunKeepsInv(trace, acts, j);
    EditingStep(trace[j], acts[j], t);
  }

  /** From any later state of an editing task back to the step at which it read the committed value. */
  lemma {:induction false} FindRead<T>(trace: seq<State<T>>, acts: seq<Action<T>>, j: nat, t: nat) returns (r: nat)
    requires IsRun(trace, acts) && j < |trace| && t < |trace[j].tasks| && trace[j].tasks[t].pc.Editing?
    ensures r < j && acts[r].Run? && acts[r].t == t
    ensures t < |trace[r].tasks| && trace[r].tasks[t].pc == Holding && trace[r].tasks[t].f == trace[j].tasks[t].f
    ensures trace[j].tasks[t].pc == Editing(trace[r].epoch)
    ensures trace[r].store.committed in trace[r].store.heap
    ensures Update(t) in trace[j].held
    ensures trace[j].held[Update(t)] == Handle(trace[r].store.committed, trace[r].store.Committed())
    ensures trace[r].epoch <= trace[j].epoch
    ensures trace[r].epoch == trace[j].epoch <==> forall k | r < k < j :: !CommitsDraft(trace[k], acts[k])
  {
    assert j != 0;
    EditingBefore(trace, acts, j - 1, t);
    if acts[j - 1].Run? && acts[j - 1].t == t {
      r := j - 1;
    } else {
      r := FindRead(trace, acts, j - 1, t);
    }
  }

  /** How the last section of an update ends, in terms of the version it read. */
  lemma FinishOutcome<T>(s: State<T>, t: nat, a: Addr)
    requires Inv(s) && Enabled(s, Run(t, a)) && s.tasks[t].pc.Editing?
    ensures Update(t) in s.held && |RunTask(s, t, a).tasks| == |s.tasks|
    ensures RunTask(s, t, a).tasks[t].pc == Closing(
              if s.tasks[t].f(s.held[Update(t)].seen).None? then ClosureFailed
              else if s.tasks[t].pc.epoch == s.epoch then Wrote else Stale)
    ensures s.tasks[t].pc.epoch == s.epoch ==> s.store.Committed() == s.held[Update(t)].seen
  {
  }

  /**
   Every asynchronous update reads the committed value at some step `r` and finishes at a later step
   `i`. It writes iff its closure succeeded on that value and no draft was committed in between (another
   update cannot get in its way), and then it writes exactly the closure's result on the value committed
   at step `i`. Otherwise nothing changes.
   */
  lemma UpdateOutcome<T>(trace: seq<State<T>>, acts: seq<Action<T>>, i: nat) returns (r: nat)
    requires IsRun(trace, acts) && i < |acts| && acts[i].Run?
    requires acts[i].t < |trace[i].tasks| && trace[i].tasks[acts[i].t].pc.Editing?
    ensures Inv(trace[i]) && Inv(trace[i + 1])
    ensures r < i && acts[r].Run? && acts[r].t == acts[i].t && Inv(trace[r])
    ensures acts[i].t < |trace[r].tasks| && trace[r].tasks[acts[i].t].pc == Holding
    ensures acts[i].t < |trace[i + 1].tasks|
    ensures var read := trace[r].store.Committed();
            var result := trace[i].tasks[acts[i].t].f(read);
            var undisturbed := forall k | r < k < i :: !CommitsDraft(trace[k], acts[k]);
            && trace[i + 1].tasks[acts[i].t].pc ==
                 Closing(if result.None? then ClosureFailed else if undisturbed then Wrote else Stale)
            && (undisturbed ==> trace[i].store.Committed() == read)
            && Abs(trace[i + 1].store) ==
                 if result.Some? && undisturbed then Layer(result.value, Abs(trace[i].store).draft)
                 else Abs(trace[i].store)
  {
    RunKeepsInv(trace, acts, i);
    r := FindRead(trace, acts, i, acts[i].t);
    RunKeepsInv(trace, acts, r);
    StepRefines(trace[i], acts[i]);
    FinishOutcome(trace[i], acts[i].t, acts[i].a);
  }

  // ---- Snapshots ------------------------------------------------------------------------------

  lemma HandleIsKept<T>(s: State<T>, act: Action<T>, o: Owner)
    requires Inv(s) && Enabled(s, act) && o in s.held && o in Next(s, act).held
    ensures Next(s, act).held[o] == s.held[o]
  {
  }

  /** A reference kept from state `i` to state `j` names the same cell with the same content. */
  lemma {:induction false} SnapshotNeverChanges<T>(trace: seq<State<T>>, acts: seq<Action<T>>, i: nat, j: nat, o: Owner)
    requires IsRun(trace, acts) && i <= j < |trace|
    requires forall k | i <= k <= j :: o in trace[k].held
    ensures trace[j].held[o] == trace[i].held[o]
    ensures var h := trace[i].held[o];
      && h.addr in trace[i].store.heap && h.addr in trace[j].store.heap
      && trace[j].store.heap[h.addr].value == trace[i].store.heap[h.addr].value == h.seen
    decreases j
  {
    if i < j {
      SnapshotNeverChanges(trace, acts, i, j - 1, o);
      RunKeepsInv(trace, acts, j - 1);
      HandleIsKept(trace[j - 1], acts[j - 1], o);
    } else {
      RunReachesInv(trace, acts, i);
    }
  }

  /**
   What a reader gets, in every interleaving: the latest value or the committed one as it stands at that step, or
   what the reader it shares with was given. Reading changes neither value.
   */
  lemma ReaderSees<T>(trace: seq<State<T>>, acts: seq<Action<T>>, i: nat)
    requires IsRun(trace, acts) && i < |acts|
    ensures Inv(trace[i]) && Inv(trace[i + 1])
    ensures var l, s' := Abs(trace[i].store), trace[i + 1];
      match acts[i]
      case TakeLatest(id) =>
        Reader(id) in s'.held && Abs(s'.store) == l
        && s'.held[Reader(id)].seen == (if l.draft.Some? then l.draft.value else l.committed)
      case TakeCommitted(id) =>
        Reader(id) in s'.held && Abs(s'.store) == l && s'.held[Reader(id)].seen == l.committed
      case Share(from, id) =>
        Reader(id) in s'.held && Abs(s'.store) == l
        && Reader(from) in trace[i].held && s'.held[Reader(id)] == trace[i].held[Reader(from)]
      case _ => true
  {
    RunKeepsInv(trace, acts, i);
    StepRefines(trace[i], acts[i]);
  }

  /** An edit works in place exactly on a draft cell nobody else refers to; otherwise the draft moves to a fresh one. */
  lemma EditsInPlaceIff<T>(s: Store<T>, f: T -> T, a: Addr)
    requires s.WellFormed() && a !in s.heap
    ensures var s' := Edited(s, f, a);
      && (s'.draft == s.draft <==> s.draft.Some? && s.heap[s.draft.value].strong == 1)
      && (s'.draft == s.draft || s'.draft == Some(a))
  {
  }

  // ---- Completion -----------------------------------------------------------------------------

  /** Bounds the steps a task may still take, including those its own notification buys for another. */
  function Weight(pc: Pc): nat {
    match pc
    case Start => 14
    case Yielded => 13
    case Woken => 12
    case Retry => 11
    case Polling => 10
    case Parked => 9
    case Holding => 8
    case Editing(_) => 7
    case Closing(_) => 6
    case Unlocking(_) => 5
    case Notifying(_) => 4
    case Done(_) => 0
  }

  function TotalWeight<T>(tasks: seq<Task<T>>): nat {
    if tasks == [] then 0 else Weight(tasks[0].pc) + TotalWeight(tasks[1..])
  }

  lemma {:induction false} WeightOfUpdate<T>(tasks: seq<Task<T>>, t: nat, task: Task<T>)
    requires t < |tasks|
    ensures TotalWeight(tasks[t := task]) == TotalWeight(tasks) - Weight(tasks[t].pc) + Weight(task.pc)
  {
    if t == 0 {
      assert tasks[0 := task][1..] == tasks[1..];
    } else {
      assert tasks[t := task][1..] == tasks[1..][t - 1 := task];
      WeightOfUpdate(tasks[1..], t - 1, task);
    }
  }

  lemma {:induction false} WeightOfSpawn<T>(tasks: seq<Task<T>>, task: Task<T>)
    ensures TotalWeight(tasks + [task]) == TotalWeight(tasks) + Weight(task.pc)
  {
    if tasks != [] {
      assert (tasks + [task])[1..] == tasks[1..] + [task];
      WeightOfSpawn(tasks[1..], task);
    } else {
      assert tasks + [task] == [task];
    }
  }

  function Remaining<T>(s: State<T>): nat {
    TotalWeight(s.tasks) + if s.permit then 2 else 0
  }

  /** The weight of a task step outside a notification. */
  lemma TaskStepWeight<T>(s: State<T>, t: nat, a: Addr)
    requires Inv(s) && Enabled(s, Run(t, a)) && !s.tasks[t].pc.Notifying?
    ensures |RunTask(s, t, a).tasks| == |s.tasks|
    ensures var s' := RunTask(s, t, a);
      Weight(s'.tasks[t].pc) + (if s'.permit then 2 else 0) < Weight(s.tasks[t].pc) + if s.permit then 2 else 0
  {
  }

  lemma NotifyMakesProgress<T>(s: State<T>, t: nat, a: Addr)
    requires Inv(s) && Enabled(s, Run(t, a)) && s.tasks[t].pc.Notifying?
    ensures Remaining(RunTask(s, t, a)) < Remaining(s)
  {
    var pc := TasksAfterRun(s, t, a);
    WokenWeight(s, t);
    NotifierIsDone(s, t, a);
    WeightOfUpdate(TasksWokenBy(s, t), t, s.tasks[t].(pc := pc));
  }

  lemma NotifierIsDone<T>(s: State<T>, t: nat, a: Addr)
    requires Inv(s) && Enabled(s, Run(t, a)) && s.tasks[t].pc.Notifying?
    ensures |RunTask(s, t, a).tasks| == |s.tasks| && RunTask(s, t, a).tasks[t].pc.Done?
    ensures RunTask(s, t, a).permit == (s.permit || s.waiters == [])
  {
    assert s.waiters != [] ==> s.waiters[0] in s.waiters;
  }

  lemma WokenWeight<T>(s: State<T>, t: nat)
    requires Inv(s) && t < |s.tasks| && s.tasks[t].pc.Notifying?
    ensures |TasksWokenBy(s, t)| == |s.tasks| && TasksWokenBy(s, t)[t] == s.tasks[t]
    ensures TotalWeight(TasksWokenBy(s, t)) == TotalWeight(s.tasks) + if s.waiters == [] then 0 else 3
  {
    if s.waiters != [] {
      assert s.waiters[0] in s.waiters;
      WeightOfUpdate(s.tasks, s.waiters[0], s.tasks[s.waiters[0]].(pc := Woken));
    }
  }

  lemma TaskStepMakesProgress<T>(s: State<T>, t: nat, a: Addr)
    requires Inv(s) && Enabled(s, Run(t, a)) && !s.tasks[t].pc.Notifying?
    ensures Remaining(RunTask(s, t, a)) < Remaining(s)
  {
    var pc := TasksAfterRun(s, t, a);
    TaskStepWeight(s, t, a);
    WeightOfUpdate(s.tasks, t, s.tasks[t].(pc := pc));
  }

  /** Every task step makes progress; only spawning adds work. */
  lemma StepMakesProgress<T>(s: State<T>, act: Action<T>)
    requires Inv(s) && Enabled(s, act)
    ensures act.Run? ==> Remaining(Next(s, act)) < Remaining(s)
    ensures act.Spawn? ==> Remaining(Next(s, act)) == Remaining(s) + Weight(Start)
    ensures !act.Run? && !act.Spawn? ==> Remaining(Next(s, act)) == Remaining(s)
  {
    match act
    case Spawn(f) => WeightOfSpawn(s.tasks, Task(f, Start));
    case Run(t, a) =>
      if s.tasks[t].pc.Notifying? {
        NotifyMakesProgress(s, t, a);
      } else {
        TaskStepMakesProgress(s, t, a);
      }
    case _ =>
  }

  function CountRuns<T>(acts: seq<Action<T>>): nat {
    if acts == [] then 0 else CountRuns(acts[..|acts| - 1]) + if acts[|acts| - 1].Run? then 1 else 0
  }

  function CountSpawns<T>(acts: seq<Action<T>>): nat {
    if acts == [] then 0 else CountSpawns(acts[..|acts| - 1]) + if acts[|acts| - 1].Spawn? then 1 else 0
  }

  /** In every schedule, `n` updates take at most `14 n` steps between them: no retry loop spins. */
  lemma {:induction false} StepsAreBounded<T>(trace: seq<State<T>>, acts: seq<Action<T>>)
    requires IsRun(trace, acts)
    ensures CountRuns(acts) + Remaining(trace[|acts|]) <= 14 * CountSpawns(acts)
    decreases |acts|
  {
    if acts != [] {
      var n := |acts| - 1;
      var before, earlier := trace[..n + 1], acts[..n];
      assert IsRun(before, earlier) by {
        forall i | 0 <= i < n ensures StepAt(before, earlier, i) {
          assert StepAt(trace, acts, i);
        }
      }
      StepsAreBounded(before, earlier);
      RunKeepsInv(trace, acts, n);
      StepMakesProgress(trace[n], acts[n]);
    }
  }

  lemma WaitersHaveAnActor<T>(s: State<T>)
    requires Inv(s)
    ensures !s.modifying && s.waiters != [] ==> exists u :: 0 <= u < |s.tasks| && WillActOnFlag(s.tasks[u].pc)
  {
    if s.waiters != [] {
      assert s.waiters[0] in s.waiters;
    }
  }

  /** No waiter is stranded: when no task can take a step, every update has completed. */
  lemma QuietMeansDone<T>(trace: seq<State<T>>, acts: seq<Action<T>>, i: nat)
    requires IsRun(trace, acts) && i < |trace|
    requires forall t | 0 <= t < |trace[i].tasks| :: !Runnable(trace[i].tasks[t].pc)
    ensures forall t | 0 <= t < |trace[i].tasks| :: trace[i].tasks[t].pc.Done?
    ensures !trace[i].modifying && trace[i].waiters == []
  {
    RunReachesInv(trace, acts, i);
    var s := trace[i];
    forall t | 0 <= t < |s.tasks| ensures !HoldsFlag(s.tasks[t].pc) && !WillActOnFlag(s.tasks[t].pc) {
      assert !Runnable(s.tasks[t].pc);
    }
    WaitersHaveAnActor(s);
  }

  /**
   At most one update is past the flag, and while the flag is free and somebody is parked, a notifier
   or a woken task has yet to act.
   */
  lemma PermitIsExclusiveAndFair<T>(trace: seq<State<T>>, acts: seq<Action<T>>, i: nat, t: nat, u: nat)
    requires IsRun(trace, acts) && i < |trace| && t < |trace[i].tasks| && u < |trace[i].tasks|
    ensures HoldsFlag(trace[i].tasks[t].pc) && HoldsFlag(trace[i].tasks[u].pc) ==> t == u
    ensures !trace[i].modifying && trace[i].tasks[t].pc == Parked ==>
              exists w :: 0 <= w < |trace[i].tasks| && WillActOnFlag(trace[i].tasks[w].pc)
  {
    RunReachesInv(trace, acts, i);
  }

  // ---- Properties of the stored value ---------------------------------------------------------

  ghost predicate ActionKeeps<T(!new)>(act: Action<T>, good: T -> bool) {
    match act
    case Edit(f, _) => forall x :: good(x) ==> good(f(x))
    case Spawn(f) => forall x :: good(x) && f(x).Some? ==> good(f(x).value)
    case _ => true
  }

  ghost predicate GoodHeap<T(!new)>(h: Heap<T>, good: T -> bool) {
    forall a <- h :: good(h[a].value)
  }

  ghost predicate GoodTasks<T(!new)>(tasks: seq<Task<T>>, good: T -> bool) {
    forall t | 0 <= t < |tasks| :: ActionKeeps(Spawn(tasks[t].f), good)
  }

  /** Every value anybody can see: in a live cell, and so in every held snapshot. */
  ghost predicate AllGood<T(!new)>(s: State<T>, good: T -> bool) {
    GoodHeap(s.store.heap, good) && GoodTasks(s.tasks, good)
  }

  lemma TaskStepKeepsGoodHeap<T(!new)>(s: State<T>, t: nat, a: Addr, good: T -> bool)
    requires Inv(s) && Enabled(s, Run(t, a)) && AllGood(s, good)
    ensures GoodHeap(RunTask(s, t, a).store.heap, good)
  {
    assert ActionKeeps(Spawn(s.tasks[t].f), good);
    if s.tasks[t].pc.Editing? {
      assert good(s.held[Update(t)].seen);
    }
  }

  lemma StepKeepsGood<T(!new)>(s: State<T>, act: Action<T>, good: T -> bool)
    requires Inv(s) && Enabled(s, act) && AllGood(s, good) && ActionKeeps(act, good)
    ensures AllGood(Next(s, act), good)
  {
    if act.Run? {
      TaskStepKeepsGoodHeap(s, act.t, act.a, good);
    }
    TasksAfter(s, act);
  }

  /** A property kept by every edit and every closure holds of every value anybody ever sees. */
  lemma {:induction false} RunKeepsGood<T(!new)>(trace: seq<State<T>>, acts: seq<Action<T>>, good: T -> bool, i: nat)
    requires IsRun(trace, acts) && i < |trace|
    requires Inv(trace[0]) ==> good(trace[0].store.Committed())
    requires forall k | 0 <= k < |acts| :: ActionKeeps(acts[k], good)
    ensures Inv(trace[i]) && AllGood(trace[i], good)
  {
    RunReachesInv(trace, acts, i);
    if i != 0 {
      RunKeepsGood(trace, acts, good, i - 1);
      RunKeepsInv(trace, acts, i - 1);
      StepKeepsGood(trace[i - 1], acts[i - 1], good);
    }
  }
}
