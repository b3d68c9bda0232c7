/** Transactions do what they are told, come to an end, and live beside whatever else is done to their layers. */
module TransactionLaws {
  import opened Basics
  import opened TransactionProtocol
  import DraftRuns

  /** What others do to a layer, whoever holds it; they touch no other layer and no claim. */
  lemma OutsideActs<T>(s: State<T>, act: Action<T>, l: nat)
    requires Ranged(s) && Enabled(s, act) && l < |s.slots|
    requires act.EditOutside? || act.ApplyOutside? || act.DiscardOutside? || act.UpdateOutside?
    ensures var v, slots := s.slots[l].value, Next(s, act).slots;
      var latest := if v.draft.Some? then v.draft.value else v.committed;
      && |slots| == |s.slots| && slots[l].claimed == s.slots[l].claimed && Next(s, act).txs == s.txs
      && (act.layer != l ==> slots[l] == s.slots[l])
      && (act.layer == l ==>
            match act
            case EditOutside(_, f) => slots[l].value == DraftRuns.Layer(v.committed, Some(f(latest)))
            case ApplyOutside(_) => slots[l].value == DraftRuns.Layer(latest, None)
            case DiscardOutside(_) => slots[l].value == DraftRuns.Layer(v.committed, None)
            case UpdateOutside(_, f) =>
              slots[l].value.draft == v.draft
              && slots[l].value.committed == if f(v.committed).Some? then f(v.committed).value else v.committed)
  {
  }

  // ---- Transactions do as they are told, and come to an end -----------------------------------

  /** Whether the transaction was told to commit or to roll back, once it has been told. */
  function Told(tx: Tx): Option<bool> {
    match tx
    case Applying(_, _) => Some(true)
    case Dropping(_, _, committed) => Some(committed)
    case Releasing(_, _) => Some(false)
    case Finished(_, committed) => Some(committed)
    case _ => None
  }

  lemma ToldAfter<T>(s: State<T>, act: Action<T>, t: nat)
    requires Ranged(s) && Enabled(s, act) && t < |s.txs| && t < |Next(s, act).txs|
    ensures Told(Next(s, act).txs[t])
         == if act == Commit(t) then Some(true) else if act == Rollback(t) then Some(false) else Told(s.txs[t])
  {
    if act.Step? {
      StepKeepsRange(s, act.tx);
    }
  }

  /** Only a transaction that has begun is told anything, and only once. */
  lemma ToldLater<T>(s: State<T>, act: Action<T>, t: nat)
    requires Ranged(s) && Enabled(s, act) && t < |Next(s, act).txs|
    ensures act == Commit(t) || act == Rollback(t) ==> t < |s.txs| && Told(s.txs[t]).None?
    ensures t >= |s.txs| ==> Told(Next(s, act).txs[t]).None?
  {
    if act.Step? {
      StepKeepsRange(s, act.tx);
    }
  }

  /** The transaction was told so, among the first `i` steps. */
  ghost predicate Asked<T>(acts: seq<Action<T>>, i: nat, act: Action<T>) {
    exists k :: 0 <= k < i && k < |acts| && acts[k] == act
  }

  lemma AskedOneMore<T>(acts: seq<Action<T>>, i: nat, act: Action<T>)
    requires i < |acts|
    ensures Asked(acts, i + 1, act) <==> Asked(acts, i, act) || acts[i] == act
  {
    if Asked(acts, i + 1, act) {
      var k :| 0 <= k < i + 1 && acts[k] == act;
      assert k < i || k == i;
    }
  }

  lemma {:induction false} ToldNothingYet<T>(trace: seq<State<T>>, acts: seq<Action<T>>, i: nat, t: nat)
    requires IsRun(trace, acts) && i < |trace| && |trace[i].txs| <= t
    ensures !Asked(acts, i, Commit(t)) && !Asked(acts, i, Rollback(t))
  {
    forall k | 0 <= k < i ensures acts[k] != Commit(t) && acts[k] != Rollback(t) {
      RunKeepsInv(trace, acts, k);
      TransactionsStay(trace, acts, k, i);
    }
  }

  /**
   In every run a transaction applies its layers exactly if it was committed and discards them exactly if it was rolled
   back, and it is never told both: its progress says which of the two steps it has met, if any.
   */
  lemma {:induction false} DoesAsTold<T>(trace: seq<State<T>>, acts: seq<Action<T>>, i: nat, t: nat)
    requires IsRun(trace, acts) && i < |trace| && t < |trace[i].txs|
    ensures Told(trace[i].txs[t]) == Some(true) <==> Asked(acts, i, Commit(t))
    ensures Told(trace[i].txs[t]) == Some(false) <==> Asked(acts, i, Rollback(t))
  {
    if i > 0 {
      RunKeepsInv(trace, acts, i - 1);
      AskedOneMore(acts, i - 1, Commit(t));
      AskedOneMore(acts, i - 1, Rollback(t));
      ToldLater(trace[i - 1], acts[i - 1], t);
      if t < |trace[i - 1].txs| {
        DoesAsTold(trace, acts, i - 1, t);
        ToldAfter(trace[i - 1], acts[i - 1], t);
      } else {
        ToldNothingYet(trace, acts, i - 1, t);
      }
    }
  }

  /** How many more steps of its own the transaction can take, the orders it has yet to get included. */
  function Work(tx: Tx): int {
    var n := |tx.layers|;
    match tx
    case Claiming(_, next) => 4 * n + 4 - next
    case BackingOut(_, failedAt, next) => failedAt - next + 1
    case Busy(_, _) => 0
    case Active(_) => 2 * n + 2
    case Applying(_, next) => 2 * n + 2 - next
    case Dropping(_, next, committed) => if committed then n - next + 1 else 2 * (n - next) + 1
    case Releasing(_, next) => 2 * (n - next)
    case Finished(_, _) => 0
  }

  lemma WorkAfter<T>(s: State<T>, act: Action<T>, t: nat)
    requires Ranged(s) && Enabled(s, act) && t < |s.txs| && t < |Next(s, act).txs|
    ensures Next(s, act).txs[t].layers == s.txs[t].layers
    ensures Work(Next(s, act).txs[t]) + (if act == Step(t) then 1 else 0) <= Work(s.txs[t])
  {
    if act.Step? {
      StepKeepsRange(s, act.tx);
    }
  }

  lemma WorkAtBegin<T>(s: State<T>, act: Action<T>, t: nat)
    requires Ranged(s) && Enabled(s, act) && |s.txs| <= t < |Next(s, act).txs|
    ensures act != Step(t) && Work(Next(s, act).txs[t]) == 4 * |Next(s, act).txs[t].layers| + 4
  {
    if act.Step? {
      StepKeepsRange(s, act.tx);
    }
  }

  /** The steps of its own that the transaction takes among the first `i`. */
  function CountSteps<T>(acts: seq<Action<T>>, i: nat, t: nat): nat
    requires i <= |acts|
  {
    if i == 0 then 0 else CountSteps(acts, i - 1, t) + if acts[i - 1] == Step(t) then 1 else 0
  }

  lemma {:induction false} NoStepsYet<T>(trace: seq<State<T>>, acts: seq<Action<T>>, i: nat, t: nat)
    requires IsRun(trace, acts) && i < |trace| && |trace[i].txs| <= t
    ensures CountSteps(acts, i, t) == 0
  {
    if i > 0 {
      RunKeepsInv(trace, acts, i - 1);
      TransactionsStay(trace, acts, i - 1, i);
      NoStepsYet(trace, acts, i - 1, t);
    }
  }

  lemma RunWorkAfter<T>(trace: seq<State<T>>, acts: seq<Action<T>>, i: nat, t: nat)
    requires IsRun(trace, acts) && i < |acts| && t < |trace[i].txs|
    ensures t < |trace[i + 1].txs| && trace[i + 1].txs[t].layers == trace[i].txs[t].layers
    ensures Work(trace[i + 1].txs[t]) + (if acts[i] == Step(t) then 1 else 0) <= Work(trace[i].txs[t])
  {
    RunKeepsInv(trace, acts, i);
    TransactionsStay(trace, acts, i, i + 1);
    WorkAfter(trace[i], acts[i], t);
  }

  lemma RunWorkAtBegin<T>(trace: seq<State<T>>, acts: seq<Action<T>>, i: nat, t: nat)
    requires IsRun(trace, acts) && i < |acts| && |trace[i].txs| <= t < |trace[i + 1].txs|
    ensures acts[i] != Step(t) && Work(trace[i + 1].txs[t]) == 4 * |trace[i + 1].txs[t].layers| + 4
  {
    RunKeepsInv(trace, acts, i);
    WorkAtBegin(trace[i], acts[i], t);
  }

  lemma WorkIsLeft(tx: Tx, slots: nat)
    requires TxRanged(tx, slots)
    ensures 0 <= Work(tx)
  {
  }

  /**
   Whatever the others do, a transaction over `n` layers takes at most `4 n + 4` steps of its own; so it does end, in a
   failed begin or finished, or waits to be told.
   */
  lemma {:induction false} TransactionStepsAreBounded<T>(trace: seq<State<T>>, acts: seq<Action<T>>, i: nat, t: nat)
    requires IsRun(trace, acts) && i < |trace| && t < |trace[i].txs|
    ensures CountSteps(acts, i, t) + Work(trace[i].txs[t]) <= 4 * |trace[i].txs[t].layers| + 4
    ensures 0 <= Work(trace[i].txs[t])
  {
    RunReachesInv(trace, acts, i);
    WorkIsLeft(trace[i].txs[t], |trace[i].slots|);
    if i > 0 {
      if t < |trace[i - 1].txs| {
        TransactionStepsAreBounded(trace, acts, i - 1, t);
        RunWorkAfter(trace, acts, i - 1, t);
      } else {
        NoStepsYet(trace, acts, i - 1, t);
        RunWorkAtBegin(trace, acts, i - 1, t);
      }
    }
  }
}
