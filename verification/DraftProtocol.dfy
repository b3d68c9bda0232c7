/**
 Concurrent use of one draft layer, as a state machine whose atomic steps are the critical sections of
 the data mutex, the compare-exchange and the store on the update flag, and the operations of the
 notification queue. Any number of asynchronous updates, draft edits and snapshot readers interleave.

 Addresses freed by the last reference may be handed out again by any later allocation.
 */
module DraftProtocol {
  import opened Basics
  import opened DraftStore

  /** Who holds a reference from outside the store: a reader, or update task number `task`. */
  datatype Owner = Reader(id: nat) | Update(task: nat)

  /** A held reference, with the value its holder saw when taking it. */
  datatype Handle<+T> = Handle(addr: Addr, seen: T)

  datatype Outcome = Wrote | ClosureFailed | Stale

  /** Where an update task stands between two of its atomic steps. */
  datatype Pc =
    | Start                       // about to try the flag for the first time
    | Yielded                     // gave up one scheduler turn
    | Retry                       // about to try the flag again
    | Polling                     // flag was taken; about to wait for a notification
    | Parked                      // queued, waiting
    | Woken                       // chosen by a notification, not yet resumed
    | Holding                     // owns the flag, has read nothing
    | Editing(epoch: nat)         // holds the value read when `epoch` writes had happened
    | Closing(outcome: Outcome)   // has written or given up; still holds its snapshot
    | Unlocking(outcome: Outcome) // about to clear the flag
    | Notifying(outcome: Outcome) // flag cleared; about to notify
    | Done(outcome: Outcome)

  datatype Task<!T> = Task(f: T -> Option<T>, pc: Pc)

  /** `permit` and `waiters` are the notification queue; `epoch` counts writes of the committed slot. */
  datatype State<!T> = State(
    store: Store<T>,
    held: map<Owner, Handle<T>>,
    modifying: bool,
    permit: bool,
    waiters: seq<nat>,
    tasks: seq<Task<T>>,
    epoch: nat)

  /** `a` is the address the allocator would return if the step allocates. */
  datatype Action<!T> =
    | TakeCommitted(id: nat)
    | TakeLatest(id: nat)
    | Share(from: nat, id: nat)
    | Drop(id: nat)
    | Edit(edit: T -> T, a: Addr)
    | Apply
    | Discard
    | Spawn(f: T -> Option<T>)
    | Run(t: nat, a: Addr)

  function Init<T>(v: T, a: Addr): State<T> {
    State(Store(map[a := Cell(v, 1)], a, None), map[], false, false, [], [], 0)
  }

  // ---- Steps ---------------------------------------------------------------------------------

  predicate Runnable(pc: Pc) {
    !pc.Parked? && !pc.Done?
  }

  ghost predicate Enabled<T>(s: State<T>, act: Action<T>) {
    match act
    case TakeCommitted(id) => Reader(id) !in s.held
    case TakeLatest(id) => Reader(id) !in s.held
    case Share(from, id) => Reader(from) in s.held && Reader(id) !in s.held
    case Drop(id) => Reader(id) in s.held
    case Edit(_, a) => a !in s.store.heap
    case Apply => true
    case Discard => true
    case Spawn(_) => true
    case Run(t, a) => t < |s.tasks| && Runnable(s.tasks[t].pc) && a !in s.store.heap
  }

  function Take<T>(s: State<T>, o: Owner, a: Addr): State<T>
    requires a in s.store.heap
  {
    s.(store := s.store.(heap := Retain(s.store.heap, a)),
       held := s.held[o := Handle(a, s.store.heap[a].value)])
  }

  function Untake<T>(s: State<T>, o: Owner): State<T>
    requires o in s.held && s.held[o].addr in s.store.heap && 0 < s.store.heap[s.held[o].addr].strong
  {
    s.(store := s.store.(heap := Release(s.store.heap, s.held[o].addr)), held := s.held - {o})
  }

  function Goto<T>(s: State<T>, t: nat, pc: Pc): State<T>
    requires t < |s.tasks|
  {
    s.(tasks := s.tasks[t := s.tasks[t].(pc := pc)])
  }

  /** `compare_exchange` on the update flag. */
  function TryFlag<T>(s: State<T>, t: nat, otherwise: Pc): State<T>
    requires t < |s.tasks|
  {
    if s.modifying then Goto(s, t, otherwise) else Goto(s.(modifying := true), t, Holding)
  }

  /** First poll of a `notified()` future: consume the stored permit, or join the queue. */
  function PollNotified<T>(s: State<T>, t: nat): State<T>
    requires t < |s.tasks|
  {
    if s.permit then Goto(s.(permit := false), t, Retry)
    else Goto(s.(waiters := s.waiters + [t]), t, Parked)
  }

  /** `notify_one`: wake the longest-waiting task, or store the permit. */
  function NotifyOne<T>(s: State<T>): State<T>
    requires forall t <- s.waiters :: t < |s.tasks|
  {
    if s.waiters == [] then s.(permit := true)
    else assert s.waiters[0] in s.waiters; Goto(s.(waiters := s.waiters[1..]), s.waiters[0], Woken)
  }

  /** Run the closure on the value read, then compare the committed cell and write. */
  function FinishUpdate<T>(s: State<T>, t: nat, a: Addr): State<T>
    requires Inv(s) && t < |s.tasks| && s.tasks[t].pc.Editing? && a !in s.store.heap
  {
    var original := s.held[Update(t)];
    match s.tasks[t].f(original.seen)
    case None => Goto(s, t, Closing(ClosureFailed))
    case Some(v) =>
      if s.store.committed != original.addr then Goto(s, t, Closing(Stale))
      else Goto(s.(store := Replaced(s.store, v, a), epoch := s.epoch + 1), t, Closing(Wrote))
  }

  function RunTask<T>(s: State<T>, t: nat, a: Addr): State<T>
    requires Inv(s) && Enabled(s, Run(t, a))
  {
    match s.tasks[t].pc
    case Start => TryFlag(s, t, Yielded)
    case Yielded => Goto(s, t, Retry)
    case Retry => TryFlag(s, t, Polling)
    case Polling => PollNotified(s, t)
    case Woken => Goto(s, t, Retry)
    case Holding => Goto(Take(s, Update(t), s.store.committed), t, Editing(s.epoch))
    case Editing(_) => FinishUpdate(s, t, a)
    case Closing(o) => Goto(Untake(s, Update(t)), t, Unlocking(o))
    case Unlocking(o) => Goto(s.(modifying := false), t, Notifying(o))
    case Notifying(o) => Goto(NotifyOne(s), t, Done(o))
  }

  function Next<T>(s: State<T>, act: Action<T>): State<T>
    requires Inv(s) && Enabled(s, act)
  {
    match act
    case TakeCommitted(id) => Take(s, Reader(id), s.store.committed)
    case TakeLatest(id) => Take(s, Reader(id), s.store.LatestAddr())
    case Share(from, id) => Take(s, Reader(id), s.held[Reader(from)].addr)
    case Drop(id) => Untake(s, Reader(id))
    case Edit(f, a) => s.(store := Edited(s.store, f, a))
    case Apply => s.(store := Applied(s.store), epoch := s.epoch + if s.store.draft.Some? then 1 else 0)
    case Discard => s.(store := Discarded(s.store))
    case Spawn(f) => s.(tasks := s.tasks + [Task(f, Start)])
    case Run(t, a) => RunTask(s, t, a)
  }

  // ---- What every step keeps -----------------------------------------------------------------

  ghost function Holders<T>(held: map<Owner, Handle<T>>, a: Addr): set<Owner> {
    set o | o in held && held[o].addr == a
  }

  ghost function Strong<T>(h: Heap<T>, a: Addr): nat {
    if a in h then h[a].strong else 0
  }

  /** References to `a`: the committed slot, the draft slot and every outside holder. */
  ghost function Refs<T>(s: Store<T>, held: map<Owner, Handle<T>>, a: Addr): nat {
    (if s.committed == a then 1 else 0) + (if s.draft == Some(a) then 1 else 0) + |Holders(held, a)|
  }

  ghost predicate Counted<T>(s: Store<T>, held: map<Owner, Handle<T>>) {
    forall a :: Strong(s.heap, a) == Refs(s, held, a)
  }

  /** Snapshot isolation: a held cell is live and still contains what its holder saw. */
  ghost predicate Isolated<T>(s: Store<T>, held: map<Owner, Handle<T>>) {
    forall o <- held :: held[o].addr in s.heap && s.heap[held[o].addr].value == held[o].seen
  }

  predicate HoldsSnapshot(pc: Pc) {
    pc.Editing? || pc.Closing?
  }

  predicate HoldsFlag(pc: Pc) {
    pc.Holding? || pc.Editing? || pc.Closing? || pc.Unlocking?
  }

  /** A task that will look at the flag, or notify someone who will, without anybody's help. */
  predicate WillActOnFlag(pc: Pc) {
    pc.Notifying? || pc.Woken? || pc.Retry?
  }

  ghost predicate OwnsSnapshots<T>(held: map<Owner, Handle<T>>, tasks: seq<Task<T>>) {
    && (forall t: nat :: Update(t) in held ==> t < |tasks|)
    && (forall t | 0 <= t < |tasks| :: Update(t) in held <==> HoldsSnapshot(tasks[t].pc))
  }

  /** The flag is set exactly while one task, and only one, is between acquiring and clearing it. */
  ghost predicate Exclusive<T>(modifying: bool, tasks: seq<Task<T>>) {
    && (modifying <==> exists t :: 0 <= t < |tasks| && HoldsFlag(tasks[t].pc))
    && forall t, u | 0 <= t < |tasks| && 0 <= u < |tasks| ::
         HoldsFlag(tasks[t].pc) && HoldsFlag(tasks[u].pc) ==> t == u
  }

  ghost predicate Queued<T>(permit: bool, waiters: seq<nat>, tasks: seq<Task<T>>) {
    && (forall t <- waiters :: t < |tasks| && tasks[t].pc == Parked)
    && (forall t | 0 <= t < |tasks| && tasks[t].pc == Parked :: t in waiters)
    && (forall i, j | 0 <= i < j < |waiters| :: waiters[i] != waiters[j])
    && (permit ==> waiters == [])
  }

  /** While the flag is free and someone waits or is about to, somebody else will act. */
  ghost predicate NoneStranded<T>(modifying: bool, permit: bool, tasks: seq<Task<T>>) {
    !modifying ==>
      forall t | 0 <= t < |tasks| && (tasks[t].pc.Parked? || tasks[t].pc.Polling?) ::
        permit || exists u :: 0 <= u < |tasks| && WillActOnFlag(tasks[u].pc)
  }

  /** The pointer comparison is exact: it succeeds iff nothing was committed since the read. */
  ghost predicate Versioned<T>(s: Store<T>, held: map<Owner, Handle<T>>, tasks: seq<Task<T>>, epoch: nat) {
    forall t | 0 <= t < |tasks| && tasks[t].pc.Editing? && Update(t) in held ::
      && tasks[t].pc.epoch <= epoch
      && (tasks[t].pc.epoch == epoch <==> s.committed == held[Update(t)].addr)
      && s.draft != Some(held[Update(t)].addr)
  }

  ghost predicate StoreInv<T>(s: Store<T>, held: map<Owner, Handle<T>>) {
    s.WellFormed() && Counted(s, held) && Isolated(s, held)
  }

  ghost predicate Inv<T>(s: State<T>) {
    && StoreInv(s.store, s.held)
    && OwnsSnapshots(s.held, s.tasks)
    && Exclusive(s.modifying, s.tasks)
    && Queued(s.permit, s.waiters, s.tasks)
    && NoneStranded(s.modifying, s.permit, s.tasks)
    && Versioned(s.store, s.held, s.tasks, s.epoch)
  }

  // ---- Reference counts ----------------------------------------------------------------------

  lemma HoldersInsert<T>(held: map<Owner, Handle<T>>, o: Owner, h: Handle<T>, a: Addr)
    requires o !in held
    ensures |Holders(held[o := h], a)| == |Holders(held, a)| + if h.addr == a then 1 else 0
  {
    assert Holders(held[o := h], a) == Holders(held, a) + if h.addr == a then {o} else {};
  }

  lemma HoldersRemove<T>(held: map<Owner, Handle<T>>, o: Owner, a: Addr)
    requires o in held
    ensures |Holders(held - {o}, a)| == |Holders(held, a)| - if held[o].addr == a then 1 else 0
  {
    assert (held - {o})[o := held[o]] == held;
    HoldersInsert(held - {o}, o, held[o], a);
  }

  /** A cell with a holder has a reference, so it is live. */
  lemma HeldIsLive<T>(s: Store<T>, held: map<Owner, Handle<T>>, o: Owner)
    requires Counted(s, held) && o in held
    ensures held[o].addr in s.heap
    ensures s.draft == Some(held[o].addr) ==> s.heap[held[o].addr].strong != 1
    ensures s.committed == held[o].addr ==> s.heap[held[o].addr].strong != 1
  {
    assert o in Holders(held, held[o].addr);
    assert Strong(s.heap, held[o].addr) == Refs(s, held, held[o].addr);
  }

  lemma TakeKeepsStore<T>(s: State<T>, o: Owner, a: Addr)
    requires StoreInv(s.store, s.held)
    requires o !in s.held && a in s.store.heap
    ensures var s' := Take(s, o, a);
      StoreInv(s'.store, s'.held)
  {
    var s' := Take(s, o, a);
    forall b ensures Strong(s'.store.heap, b) == Refs(s'.store, s'.held, b) {
      HoldersInsert(s.held, o, s'.held[o], b);
      assert Strong(s.store.heap, b) == Refs(s.store, s.held, b);
    }
  }

  lemma UntakeKeepsStore<T>(s: State<T>, o: Owner)
    requires StoreInv(s.store, s.held)
    requires o in s.held
    ensures var s' := Untake(s, o);
      StoreInv(s'.store, s'.held)
  {
    var s' := Untake(s, o);
    forall b ensures Strong(s'.store.heap, b) == Refs(s'.store, s'.held, b) {
      HoldersRemove(s.held, o, b);
      assert Strong(s.store.heap, b) == Refs(s.store, s.held, b);
    }
    HeldIsLive(s.store, s.held, o);
    forall p <- s'.held ensures s'.held[p].addr in s'.store.heap {
      HeldIsLive(s'.store, s'.held, p);
    }
  }

  /** A section that only rewrites the store keeps the counts and every held snapshot. */
  lemma SectionKeepsStore<T>(s: Store<T>, held: map<Owner, Handle<T>>, s': Store<T>, f: T -> T, v: T, a: Addr)
    requires StoreInv(s, held)
    requires || s' == Applied(s) || s' == Discarded(s)
             || (a !in s.heap && (s' == Edited(s, f, a) || s' == Replaced(s, v, a)))
    ensures StoreInv(s', held)
  {
    assert Strong(s.heap, a) == Refs(s, held, a);
    forall b ensures Strong(s'.heap, b) == Refs(s', held, b) {
      assert Strong(s.heap, b) == Refs(s, held, b);
    }
    forall o <- held
      ensures held[o].addr in s'.heap && s'.heap[held[o].addr].value == held[o].seen
    {
      HeldIsLive(s, held, o);
      HeldIsLive(s', held, o);
    }
  }

  // ---- Every step keeps the invariant ---------------------------------------------------------

  lemma InitKeepsInv<T>(v: T, a: Addr)
    ensures Inv(Init(v, a))
  {
    var s := Init(v, a);
    forall b ensures Strong(s.store.heap, b) == Refs(s.store, s.held, b) {
      assert Holders(s.held, b) == {};
    }
  }

  lemma ReaderStepKeepsInv<T>(s: State<T>, act: Action<T>)
    requires Inv(s) && Enabled(s, act)
    requires act.TakeCommitted? || act.TakeLatest? || act.Share? || act.Drop?
    ensures Inv(Next(s, act))
  {
    match act
    case TakeCommitted(id) => TakeKeepsStore(s, Reader(id), s.store.committed);
    case TakeLatest(id) => TakeKeepsStore(s, Reader(id), s.store.LatestAddr());
    case Share(from, id) => TakeKeepsStore(s, Reader(id), s.held[Reader(from)].addr);
    case Drop(id) => UntakeKeepsStore(s, Reader(id));
  }

  lemma SectionStepKeepsInv<T>(s: State<T>, act: Action<T>)
    requires Inv(s) && Enabled(s, act)
    requires act.Edit? || act.Apply? || act.Discard?
    ensures Inv(Next(s, act))
  {
    var s' := Next(s, act);
    var f: T -> T := if act.Edit? then act.edit else x => x;
    var a := if act.Edit? then act.a else 0;
    SectionKeepsStore(s.store, s.held, s'.store, f, s.store.Committed(), a);
    assert Versioned(s'.store, s'.held, s'.tasks, s'.epoch) by {
      forall t | 0 <= t < |s.tasks| && s.tasks[t].pc.Editing?
        ensures s'.store.draft != Some(s.held[Update(t)].addr)
      {
        HeldIsLive(s.store, s.held, Update(t));
      }
    }
  }

  lemma SpawnKeepsInv<T>(s: State<T>, f: T -> Option<T>)
    requires Inv(s)
    ensures Inv(Next(s, Spawn(f)))
  {
  }

  /** A step that moves no task into or out of the locked part, nor inside it, keeps these two. */
  lemma OutsideStepFrame<T>(s: State<T>, s': State<T>)
    requires Exclusive(s.modifying, s.tasks) && |s'.tasks| == |s.tasks| && s'.modifying == s.modifying
    requires forall t | 0 <= t < |s.tasks| :: s'.tasks[t].pc == s.tasks[t].pc
               || (!HoldsFlag(s'.tasks[t].pc) && !HoldsFlag(s.tasks[t].pc))
    ensures Exclusive(s'.modifying, s'.tasks)
  {
    if s.modifying {
      var t :| 0 <= t < |s.tasks| && HoldsFlag(s.tasks[t].pc);
      assert HoldsFlag(s'.tasks[t].pc);
    }
  }

  lemma SnapshotFrame<T>(s: State<T>, s': State<T>)
    requires OwnsSnapshots(s.held, s.tasks) && Versioned(s.store, s.held, s.tasks, s.epoch)
    requires s'.held == s.held && s'.store == s.store && s'.epoch == s.epoch && |s'.tasks| == |s.tasks|
    requires forall t | 0 <= t < |s.tasks| :: s'.tasks[t].pc == s.tasks[t].pc
               || (!HoldsSnapshot(s'.tasks[t].pc) && !HoldsSnapshot(s.tasks[t].pc))
    ensures OwnsSnapshots(s'.held, s'.tasks) && Versioned(s'.store, s'.held, s'.tasks, s'.epoch)
  {
  }

  /** Finding the flag set moves a task outside the locked part. */
  lemma FlagTakenKeepsInv<T>(s: State<T>, t: nat, pc: Pc)
    requires Inv(s) && t < |s.tasks| && s.modifying
    requires s.tasks[t].pc.Start? || s.tasks[t].pc.Retry?
    requires pc.Yielded? || pc.Polling?
    ensures Inv(Goto(s, t, pc))
  {
    var s' := Goto(s, t, pc);
    SnapshotFrame(s, s');
    OutsideStepFrame(s, s');
    assert Queued(s'.permit, s'.waiters, s'.tasks);
  }

  lemma FlagFreeKeepsInv<T>(s: State<T>, t: nat)
    requires Inv(s) && t < |s.tasks| && !s.modifying
    requires s.tasks[t].pc.Start? || s.tasks[t].pc.Retry?
    ensures Inv(Goto(s.(modifying := true), t, Holding))
  {
    var s' := Goto(s.(modifying := true), t, Holding);
    SnapshotFrame(s, s');
    assert HoldsFlag(s'.tasks[t].pc);
    assert Queued(s'.permit, s'.waiters, s'.tasks);
  }

  lemma FlagStepKeepsInv<T>(s: State<T>, t: nat, a: Addr)
    requires Inv(s) && Enabled(s, Run(t, a))
    requires s.tasks[t].pc.Start? || s.tasks[t].pc.Retry?
    ensures Inv(RunTask(s, t, a))
  {
    if s.modifying {
      FlagTakenKeepsInv(s, t, if s.tasks[t].pc.Start? then Yielded else Polling);
    } else {
      FlagFreeKeepsInv(s, t);
    }
  }

  lemma ResumeKeepsInv<T>(s: State<T>, t: nat, a: Addr)
    requires Inv(s) && Enabled(s, Run(t, a))
    requires s.tasks[t].pc.Yielded? || s.tasks[t].pc.Woken?
    ensures Inv(RunTask(s, t, a))
  {
    var s' := RunTask(s, t, a);
    SnapshotFrame(s, s');
    OutsideStepFrame(s, s');
    assert WillActOnFlag(s'.tasks[t].pc);
  }

  lemma PollKeepsInv<T>(s: State<T>, t: nat, a: Addr)
    requires Inv(s) && Enabled(s, Run(t, a)) && s.tasks[t].pc.Polling?
    ensures Inv(RunTask(s, t, a))
  {
    var s' := RunTask(s, t, a);
    SnapshotFrame(s, s');
    OutsideStepFrame(s, s');
    assert Queued(s'.permit, s'.waiters, s'.tasks) by { assert t !in s.waiters; }
    assert NoneStranded(s'.modifying, s'.permit, s'.tasks) by {
      if s.permit {
        assert WillActOnFlag(s'.tasks[t].pc);
      } else if !s.modifying {
        var u :| 0 <= u < |s.tasks| && WillActOnFlag(s.tasks[u].pc);
        assert WillActOnFlag(s'.tasks[u].pc);
      }
    }
  }

  lemma UnlockKeepsInv<T>(s: State<T>, t: nat, a: Addr)
    requires Inv(s) && Enabled(s, Run(t, a)) && s.tasks[t].pc.Unlocking?
    ensures Inv(RunTask(s, t, a))
  {
    var s' := RunTask(s, t, a);
    SnapshotFrame(s, s');
    assert WillActOnFlag(s'.tasks[t].pc);
  }

  lemma NotifyKeepsQueue<T>(s: State<T>, t: nat, a: Addr)
    requires Inv(s) && Enabled(s, Run(t, a)) && s.tasks[t].pc.Notifying?
    ensures var s' := RunTask(s, t, a); Queued(s'.permit, s'.waiters, s'.tasks)
  {
    var s' := RunTask(s, t, a);
    if s.waiters != [] {
      var w := s.waiters[0];
      assert w in s.waiters;
      forall u <- s'.waiters ensures u < |s'.tasks| && s'.tasks[u].pc == Parked {
        var i :| 0 <= i < |s'.waiters| && s'.waiters[i] == u;
        assert s.waiters[i + 1] == u && u in s.waiters;
      }
      forall u | 0 <= u < |s.tasks| && s'.tasks[u].pc == Parked ensures u in s'.waiters {
        assert u in s.waiters;
      }
    }
  }

  lemma NotifyKeepsInv<T>(s: State<T>, t: nat, a: Addr)
    requires Inv(s) && Enabled(s, Run(t, a)) && s.tasks[t].pc.Notifying?
    ensures Inv(RunTask(s, t, a))
  {
    var s' := RunTask(s, t, a);
    NotifyKeepsQueue(s, t, a);
    assert s.waiters != [] ==> s.waiters[0] in s.waiters;
    SnapshotFrame(s, s');
    OutsideStepFrame(s, s');
    assert NoneStranded(s'.modifying, s'.permit, s'.tasks) by {
      if s.waiters != [] {
        assert WillActOnFlag(s'.tasks[s.waiters[0]].pc);
      }
    }
  }

  /** The steps between acquiring and clearing the flag move no other task and leave the queue alone. */
  lemma HolderStepFrame<T>(s: State<T>, s': State<T>, t: nat)
    requires Exclusive(s.modifying, s.tasks) && Queued(s.permit, s.waiters, s.tasks)
    requires t < |s.tasks| == |s'.tasks| && HoldsFlag(s.tasks[t].pc) && HoldsFlag(s'.tasks[t].pc)
    requires s'.tasks == s.tasks[t := s'.tasks[t]]
    requires s'.modifying == s.modifying && s'.permit == s.permit && s'.waiters == s.waiters
    ensures Exclusive(s'.modifying, s'.tasks) && Queued(s'.permit, s'.waiters, s'.tasks)
    ensures NoneStranded(s'.modifying, s'.permit, s'.tasks)
  {
    assert s'.modifying;
  }

  lemma UpdateStepKeepsInv<T>(s: State<T>, t: nat, a: Addr)
    requires Inv(s) && Enabled(s, Run(t, a))
    requires s.tasks[t].pc.Holding? || s.tasks[t].pc.Editing? || s.tasks[t].pc.Closing?
    ensures Inv(RunTask(s, t, a))
  {
    var s' := RunTask(s, t, a);
    var o := Update(t);
    HolderStepFrame(s, s', t);
    assert StoreInv(s'.store, s'.held) by {
      match s.tasks[t].pc
      case Holding => TakeKeepsStore(s, o, s.store.committed);
      case Closing(_) => UntakeKeepsStore(s, o);
      case Editing(_) =>
        match s.tasks[t].f(s.held[o].seen)
        case None =>
        case Some(v) => SectionKeepsStore(s.store, s.held, Replaced(s.store, v, a), x => x, v, a);
    }
    assert OwnsSnapshots(s'.held, s'.tasks);
    assert Versioned(s'.store, s'.held, s'.tasks, s'.epoch);
  }

  lemma NextKeepsInv<T>(s: State<T>, act: Action<T>)
    requires Inv(s) && Enabled(s, act)
    ensures Inv(Next(s, act))
  {
    match act
    case Spawn(f) => SpawnKeepsInv(s, f);
    case Run(t, a) =>
      match s.tasks[t].pc {
        case Start | Retry => FlagStepKeepsInv(s, t, a);
        case Yielded | Woken => ResumeKeepsInv(s, t, a);
        case Polling => PollKeepsInv(s, t, a);
        case Unlocking(_) => UnlockKeepsInv(s, t, a);
        case Notifying(_) => NotifyKeepsInv(s, t, a);
        case _ => UpdateStepKeepsInv(s, t, a);
      }
    case Edit(_, _) => SectionStepKeepsInv(s, act);
    case Apply => SectionStepKeepsInv(s, act);
    case Discard => SectionStepKeepsInv(s, act);
    case _ => ReaderStepKeepsInv(s, act);
  }
}
