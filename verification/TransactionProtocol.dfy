/**
 Any number of transactions beginning, committing and rolling back concurrently over shared layers,
 while edits, applies, discards and asynchronous updates from elsewhere go on. Every `try_claim`,
 `release`, `apply_draft` and `discard_draft` is one atomic step on one layer.
 */
module TransactionProtocol {
  import opened Basics
  import opened DraftRuns

  datatype Slot<T> = Slot(claimed: bool, value: Layer<T>)

  /** A transaction names layers by index, in its own order, possibly more than once. */
  datatype Tx =
    | Claiming(layers: seq<nat>, next: nat)                     // claims layers[..next]
    | BackingOut(layers: seq<nat>, failedAt: nat, next: nat)    // still to release layers[next..failedAt]
    | Busy(layers: seq<nat>, failedAt: nat)                     // begin reported a conflict
    | Active(layers: seq<nat>)
    | Applying(layers: seq<nat>, next: nat)
    | Dropping(layers: seq<nat>, next: nat, committed: bool)    // about to deal with layers[next]
    | Releasing(layers: seq<nat>, next: nat)                    // discarded layers[next], still claims it
    | Finished(layers: seq<nat>, committed: bool)

  datatype Kind = AppliedDraft | DiscardedDraft
  datatype Effect = Effect(tx: nat, layer: nat, kind: Kind)

  /** `log` records every apply and discard made by a transaction, in order. */
  datatype State<T> = State(slots: seq<Slot<T>>, txs: seq<Tx>, log: seq<Effect>)

  datatype Action<!T> =
    | Begin(layers: seq<nat>)
    | Step(tx: nat)
    | Commit(tx: nat)
    | Rollback(tx: nat)
    | EditOutside(layer: nat, edit: T -> T)
    | ApplyOutside(layer: nat)
    | DiscardOutside(layer: nat)
    | UpdateOutside(layer: nat, update: T -> Option<T>)

  ghost predicate Enabled<T>(s: State<T>, act: Action<T>) {
    match act
    case Begin(layers) => forall l <- layers :: l < |s.slots|
    case Step(t) => t < |s.txs| && !s.txs[t].Busy? && !s.txs[t].Active? && !s.txs[t].Finished?
    case Commit(t) => t < |s.txs| && s.txs[t].Active?
    case Rollback(t) => t < |s.txs| && s.txs[t].Active?
    case EditOutside(l, _) => l < |s.slots|
    case ApplyOutside(l) => l < |s.slots|
    case DiscardOutside(l) => l < |s.slots|
    case UpdateOutside(l, _) => l < |s.slots|
  }

  function SetTx<T>(s: State<T>, t: nat, tx: Tx): State<T>
    requires t < |s.txs|
  {
    s.(txs := s.txs[t := tx])
  }

  function SetClaim<T>(s: State<T>, l: nat, claimed: bool): State<T>
    requires l < |s.slots|
  {
    s.(slots := s.slots[l := s.slots[l].(claimed := claimed)])
  }

  function SetValue<T>(s: State<T>, l: nat, value: Layer<T>): State<T>
    requires l < |s.slots|
  {
    s.(slots := s.slots[l := s.slots[l].(value := value)])
  }

  /** The next atomic step of transaction `t`. */
  function StepTx<T>(s: State<T>, t: nat): State<T>
    requires Ranged(s) && Enabled(s, Step(t))
  {
    assert forall i | 0 <= i < |s.txs[t].layers| :: s.txs[t].layers[i] in s.txs[t].layers;
    match s.txs[t]
    case Claiming(layers, next) =>
      if next == |layers| then SetTx(s, t, Active(layers))
      else if s.slots[layers[next]].claimed then SetTx(s, t, BackingOut(layers, next, 0))
      else SetTx(SetClaim(s, layers[next], true), t, Claiming(layers, next + 1))
    case BackingOut(layers, failedAt, next) =>
      if next == failedAt then SetTx(s, t, Busy(layers, failedAt))
      else SetTx(SetClaim(s, layers[next], false), t, BackingOut(layers, failedAt, next + 1))
    case Applying(layers, next) =>
      if next == |layers| then SetTx(s, t, Dropping(layers, 0, true))
      else
        var s' := SetValue(s, layers[next], s.slots[layers[next]].value.Apply());
        SetTx(s', t, Applying(layers, next + 1)).(log := s.log + [Effect(t, layers[next], AppliedDraft)])
    case Dropping(layers, next, committed) =>
      if next == |layers| then SetTx(s, t, Finished(layers, committed))
      else if committed then SetTx(SetClaim(s, layers[next], false), t, Dropping(layers, next + 1, true))
      else
        var s' := SetValue(s, layers[next], s.slots[layers[next]].value.Discard());
        SetTx(s', t, Releasing(layers, next)).(log := s.log + [Effect(t, layers[next], DiscardedDraft)])
    case Releasing(layers, next) =>
      SetTx(SetClaim(s, layers[next], false), t, Dropping(layers, next + 1, false))
  }

  function Next<T>(s: State<T>, act: Action<T>): State<T>
    requires Ranged(s) && Enabled(s, act)
  {
    match act
    case Begin(layers) => s.(txs := s.txs + [Claiming(layers, 0)])
    case Step(t) => StepTx(s, t)
    case Commit(t) => SetTx(s, t, Applying(s.txs[t].layers, 0))
    case Rollback(t) => SetTx(s, t, Dropping(s.txs[t].layers, 0, false))
    case EditOutside(l, f) => SetValue(s, l, s.slots[l].value.Edit(f))
    case ApplyOutside(l) => SetValue(s, l, s.slots[l].value.Apply())
    case DiscardOutside(l) => SetValue(s, l, s.slots[l].value.Discard())
    case UpdateOutside(l, f) => SetValue(s, l, s.slots[l].value.Update(f))
  }

  // ---- Claims are conserved -------------------------------------------------------------------

  predicate TxRanged(tx: Tx, slots: nat) {
    && (forall l <- tx.layers :: l < slots)
    && match tx
       case Claiming(layers, next) => next <= |layers|
       case BackingOut(layers, failedAt, next) => next <= failedAt < |layers|
       case Busy(layers, failedAt) => failedAt < |layers|
       case Applying(layers, next) => next <= |layers|
       case Dropping(layers, next, _) => next <= |layers|
       case Releasing(layers, next) => next < |layers|
       case _ => true
  }

  ghost predicate Ranged<T>(s: State<T>) {
    forall t | 0 <= t < |s.txs| :: TxRanged(s.txs[t], |s.slots|)
  }

  /** A transaction holds claims on layers[from..to], as often as it names them there. */
  function HeldFrom(tx: Tx): nat {
    match tx
    case BackingOut(_, _, next) => next
    case Dropping(_, next, _) => next
    case Releasing(_, next) => next
    case Finished(layers, _) => |layers|
    case _ => 0
  }

  function HeldTo(tx: Tx): nat {
    match tx
    case Claiming(_, next) => next
    case BackingOut(_, failedAt, _) => failedAt
    case Busy(_, _) => 0
    case _ => |tx.layers|
  }

  function Holds(tx: Tx, slots: nat): seq<nat>
    requires TxRanged(tx, slots)
  {
    tx.layers[HeldFrom(tx)..HeldTo(tx)]
  }

  function Claims(tx: Tx, slots: nat, l: nat): nat
    requires TxRanged(tx, slots)
  {
    multiset(Holds(tx, slots))[l]
  }

  /** How many claims on layer `l` the transactions hold between them. */
  function TotalClaims(txs: seq<Tx>, slots: nat, l: nat): nat
    requires forall t | 0 <= t < |txs| :: TxRanged(txs[t], slots)
  {
    if txs == [] then 0 else Claims(txs[0], slots, l) + TotalClaims(txs[1..], slots, l)
  }

  /** A claimed layer is held exactly once, by one transaction; an unclaimed one by nobody. */
  ghost predicate Conserved<T>(s: State<T>)
    requires Ranged(s)
  {
    forall l | 0 <= l < |s.slots| :: TotalClaims(s.txs, |s.slots|, l) == if s.slots[l].claimed then 1 else 0
  }

  lemma {:induction false} ClaimsOfUpdate(txs: seq<Tx>, slots: nat, t: nat, tx: Tx, l: nat)
    requires (forall u | 0 <= u < |txs| :: TxRanged(txs[u], slots)) && t < |txs| && TxRanged(tx, slots)
    ensures TotalClaims(txs[t := tx], slots, l) ==
            TotalClaims(txs, slots, l) - Claims(txs[t], slots, l) + Claims(tx, slots, l)
  {
    if t == 0 {
      assert txs[0 := tx][1..] == txs[1..];
    } else {
      assert txs[t := tx][1..] == txs[1..][t - 1 := tx];
      ClaimsOfUpdate(txs[1..], slots, t - 1, tx, l);
    }
  }

  lemma {:induction false} ClaimsOfBegin(txs: seq<Tx>, slots: nat, tx: Tx, l: nat)
    requires (forall u | 0 <= u < |txs| :: TxRanged(txs[u], slots)) && TxRanged(tx, slots)
    ensures TotalClaims(txs + [tx], slots, l) == TotalClaims(txs, slots, l) + Claims(tx, slots, l)
  {
    if txs != [] {
      assert (txs + [tx])[1..] == txs[1..] + [tx];
      ClaimsOfBegin(txs[1..], slots, tx, l);
    } else {
      assert txs + [tx] == [tx];
    }
  }

  lemma {:induction false} OneShare(txs: seq<Tx>, slots: nat, t: nat, l: nat)
    requires (forall u | 0 <= u < |txs| :: TxRanged(txs[u], slots)) && t < |txs|
    ensures Claims(txs[t], slots, l) <= TotalClaims(txs, slots, l)
  {
    if t != 0 {
      assert txs[1..][t - 1] == txs[t];
      OneShare(txs[1..], slots, t - 1, l);
    }
  }

  lemma TwoShares(txs: seq<Tx>, slots: nat, t: nat, u: nat, l: nat)
    requires (forall v | 0 <= v < |txs| :: TxRanged(txs[v], slots)) && t < |txs| && u < |txs| && t != u
    ensures Claims(txs[t], slots, l) + Claims(txs[u], slots, l) <= TotalClaims(txs, slots, l)
  {
    ClaimsOfUpdate(txs, slots, t, Active([]), l);
    OneShare(txs[t := Active([])], slots, u, l);
  }

  // ---- What each transaction has done ---------------------------------------------------------

  /** The transactions' effects by `t`, in order. */
  function EffectsOf(log: seq<Effect>, t: nat): seq<Effect> {
    if log == [] then []
    else EffectsOf(log[..|log| - 1], t) + if log[|log| - 1].tx == t then [log[|log| - 1]] else []
  }

  function All(t: nat, layers: seq<nat>, kind: Kind): seq<Effect> {
    seq(|layers|, i requires 0 <= i < |layers| => Effect(t, layers[i], kind))
  }

  /** What a transaction in a given state must have done so far: all of it, once, in order. */
  function Expected(t: nat, tx: Tx, slots: nat): seq<Effect>
    requires TxRanged(tx, slots)
  {
    match tx
    case Applying(layers, next) => All(t, layers[..next], AppliedDraft)
    case Dropping(layers, next, committed) =>
      if committed then All(t, layers, AppliedDraft) else All(t, layers[..next], DiscardedDraft)
    case Releasing(layers, next) => All(t, layers[..next + 1], DiscardedDraft)
    case Finished(layers, committed) => All(t, layers, if committed then AppliedDraft else DiscardedDraft)
    case _ => []
  }

  predicate PastBegin(tx: Tx) {
    !tx.Claiming? && !tx.BackingOut? && !tx.Busy?
  }

  ghost predicate Recorded(log: seq<Effect>, txs: seq<Tx>, slots: nat)
    requires forall t | 0 <= t < |txs| :: TxRanged(txs[t], slots)
  {
    && (forall e <- log :: e.tx < |txs|)
    && (forall t | 0 <= t < |txs| :: EffectsOf(log, t) == Expected(t, txs[t], slots))
    && (forall t | 0 <= t < |txs| && PastBegin(txs[t]) :: NoRepeats(txs[t].layers))
  }

  ghost predicate Inv<T>(s: State<T>) {
    Ranged(s) && Conserved(s) && Recorded(s.log, s.txs, |s.slots|)
  }

  lemma OccursTwice(s: seq<nat>, i: nat, j: nat)
    requires i < j < |s| && s[i] == s[j]
    ensures multiset(s)[s[i]] >= 2
  {
    assert s == s[..i] + [s[i]] + s[i + 1..j] + [s[j]] + s[j + 1..];
  }

  lemma OccursOnce(s: seq<nat>)
    requires forall l <- s :: multiset(s)[l] <= 1
    ensures NoRepeats(s)
  {
    forall i, j | 0 <= i < j < |s| ensures s[i] != s[j] {
      assert s[i] in s;
      if s[i] == s[j] {
        OccursTwice(s, i, j);
      }
    }
  }

  /** A transaction's claims are distinct and on claimed layers. */
  lemma ClaimsAreDistinct<T>(s: State<T>, t: nat)
    requires Ranged(s) && Conserved(s) && t < |s.txs|
    ensures NoRepeats(Holds(s.txs[t], |s.slots|))
    ensures forall l <- Holds(s.txs[t], |s.slots|) :: l < |s.slots| && s.slots[l].claimed
  {
    var n, mine := |s.slots|, Holds(s.txs[t], |s.slots|);
    forall l <- mine ensures l < n && s.slots[l].claimed && multiset(mine)[l] <= 1 {
      assert l in s.txs[t].layers;
      OneShare(s.txs, n, t, l);
    }
    OccursOnce(mine);
  }

  /** No two transactions hold the same layer. */
  lemma ClaimsAreExclusive<T>(s: State<T>, t: nat, u: nat, l: nat)
    requires Ranged(s) && Conserved(s) && t < |s.txs| && u < |s.txs| && t != u
    ensures !(l in Holds(s.txs[t], |s.slots|) && l in Holds(s.txs[u], |s.slots|))
  {
    if l in Holds(s.txs[t], |s.slots|) {
      assert l in s.txs[t].layers;
      TwoShares(s.txs, |s.slots|, t, u, l);
      assert Claims(s.txs[t], |s.slots|, l) >= 1;
    }
  }

  // ---- Every step keeps the invariant ---------------------------------------------------------

  lemma CountAtEnds(s: seq<nat>, from: nat, to: nat, l: nat)
    requires from < to <= |s|
    ensures multiset(s[from..to])[l] == multiset(s[from + 1..to])[l] + Bit(s[from] == l)
    ensures multiset(s[from..to])[l] == multiset(s[from..to - 1])[l] + Bit(s[to - 1] == l)
  {
    assert s[from..to] == [s[from]] + s[from + 1..to];
    assert s[from..to] == s[from..to - 1] + [s[to - 1]];
  }

  function Bit(b: bool): nat {
    if b then 1 else 0
  }

  lemma StepKeepsRange<T>(s: State<T>, t: nat)
    requires Ranged(s) && Enabled(s, Step(t))
    ensures Ranged(StepTx(s, t)) && |StepTx(s, t).slots| == |s.slots|
    ensures |StepTx(s, t).txs| == |s.txs| && StepTx(s, t).txs == s.txs[t := StepTx(s, t).txs[t]]
  {
    assert forall i | 0 <= i < |s.txs[t].layers| :: s.txs[t].layers[i] in s.txs[t].layers;
  }

  predicate Acquires(tx: Tx, tx': Tx) {
    tx'.layers == tx.layers && HeldFrom(tx') == HeldFrom(tx) && HeldTo(tx') == HeldTo(tx) + 1
  }

  predicate Releases(tx: Tx, tx': Tx) {
    tx'.layers == tx.layers && HeldFrom(tx') == HeldFrom(tx) + 1 && HeldTo(tx') == HeldTo(tx)
  }

  lemma AcquiringStep<T>(s: State<T>, t: nat)
    requires Ranged(s) && Enabled(s, Step(t)) && |StepTx(s, t).txs| == |s.txs|
    requires Acquires(s.txs[t], StepTx(s, t).txs[t])
    ensures var tx, tx' := s.txs[t], StepTx(s, t).txs[t];
      && HeldFrom(tx) <= HeldTo(tx) < |tx.layers| && tx.layers[HeldTo(tx)] < |s.slots|
      && !s.slots[tx.layers[HeldTo(tx)]].claimed
      && StepTx(s, t) == SetTx(SetClaim(s, tx.layers[HeldTo(tx)], true), t, tx')
  {
    assert forall i | 0 <= i < |s.txs[t].layers| :: s.txs[t].layers[i] in s.txs[t].layers;
  }

  lemma ReleasingStep<T>(s: State<T>, t: nat)
    requires Ranged(s) && Enabled(s, Step(t)) && |StepTx(s, t).txs| == |s.txs|
    requires Releases(s.txs[t], StepTx(s, t).txs[t])
    ensures var tx, tx' := s.txs[t], StepTx(s, t).txs[t];
      && HeldFrom(tx) < HeldTo(tx) <= |tx.layers| && tx.layers[HeldFrom(tx)] < |s.slots|
      && StepTx(s, t) == SetTx(SetClaim(s, tx.layers[HeldFrom(tx)], false), t, tx')
  {
    assert forall i | 0 <= i < |s.txs[t].layers| :: s.txs[t].layers[i] in s.txs[t].layers;
  }

  /** A step claims the next layer, gives back the first one held, or touches no claim. */
  lemma StepShape<T>(s: State<T>, t: nat)
    requires Ranged(s) && Enabled(s, Step(t))
    ensures var s', tx, tx' := StepTx(s, t), s.txs[t], StepTx(s, t).txs[t];
      if Acquires(tx, tx') then
        && HeldFrom(tx) <= HeldTo(tx) < |tx.layers| && tx.layers[HeldTo(tx)] < |s.slots|
        && !s.slots[tx.layers[HeldTo(tx)]].claimed
        && s' == SetTx(SetClaim(s, tx.layers[HeldTo(tx)], true), t, tx')
      else if Releases(tx, tx') then
        && HeldFrom(tx) < HeldTo(tx) <= |tx.layers| && tx.layers[HeldFrom(tx)] < |s.slots|
        && s' == SetTx(SetClaim(s, tx.layers[HeldFrom(tx)], false), t, tx')
      else
        && TxRanged(tx', |s.slots|) && Holds(tx', |s.slots|) == Holds(tx, |s.slots|)
        && |s'.slots| == |s.slots| && forall l | 0 <= l < |s.slots| :: s'.slots[l].claimed == s.slots[l].claimed
  {
    StepKeepsRange(s, t);
    var tx, tx' := s.txs[t], StepTx(s, t).txs[t];
    if Acquires(tx, tx') {
      AcquiringStep(s, t);
    } else if Releases(tx, tx') {
      ReleasingStep(s, t);
    } else {
      OtherStep(s, t);
    }
  }

  lemma OtherStep<T>(s: State<T>, t: nat)
    requires Ranged(s) && Enabled(s, Step(t)) && |StepTx(s, t).txs| == |s.txs|
    requires !Acquires(s.txs[t], StepTx(s, t).txs[t]) && !Releases(s.txs[t], StepTx(s, t).txs[t])
    ensures var s', tx, tx' := StepTx(s, t), s.txs[t], StepTx(s, t).txs[t];
      && TxRanged(tx', |s.slots|) && Holds(tx', |s.slots|) == Holds(tx, |s.slots|)
      && |s'.slots| == |s.slots| && forall l | 0 <= l < |s.slots| :: s'.slots[l].claimed == s.slots[l].claimed
  {
    assert forall i | 0 <= i < |s.txs[t].layers| :: s.txs[t].layers[i] in s.txs[t].layers;
  }

  /** A transaction's claim on a layer and the layer's flag change together. */
  lemma ClaimFollowsFlag<T>(s: State<T>, t: nat, l: nat)
    requires Ranged(s) && Enabled(s, Step(t)) && l < |s.slots|
    requires Claims(s.txs[t], |s.slots|, l) <= Bit(s.slots[l].claimed)
    ensures var s', n := StepTx(s, t), |s.slots|;
            |s'.slots| == n && TxRanged(s'.txs[t], n) &&
            Claims(s'.txs[t], n, l) + Bit(s.slots[l].claimed) == Claims(s.txs[t], n, l) + Bit(s'.slots[l].claimed)
  {
    StepKeepsRange(s, t);
    StepShape(s, t);
    var tx, tx' := s.txs[t], StepTx(s, t).txs[t];
    if Acquires(tx, tx') {
      CountAtEnds(tx.layers, HeldFrom(tx), HeldTo(tx'), l);
    } else if Releases(tx, tx') {
      CountAtEnds(tx.layers, HeldFrom(tx), HeldTo(tx), l);
    }
  }

  lemma StepKeepsClaims<T>(s: State<T>, t: nat)
    requires Ranged(s) && Conserved(s) && Enabled(s, Step(t))
    ensures Ranged(StepTx(s, t)) && Conserved(StepTx(s, t))
  {
    var s', n := StepTx(s, t), |s.slots|;
    StepKeepsRange(s, t);
    forall l | 0 <= l < n ensures TotalClaims(s'.txs, n, l) == Bit(s'.slots[l].claimed) {
      OneShare(s.txs, n, t, l);
      ClaimFollowsFlag(s, t, l);
      ClaimsOfUpdate(s.txs, n, t, s'.txs[t], l);
    }
  }

  lemma EffectsOfAppend(log: seq<Effect>, e: Effect, t: nat)
    ensures EffectsOf(log + [e], t) == EffectsOf(log, t) + if e.tx == t then [e] else []
  {
    assert (log + [e])[..|log|] == log;
  }

  lemma {:induction false} NoEffectsOf(log: seq<Effect>, t: nat)
    requires forall e <- log :: e.tx != t
    ensures EffectsOf(log, t) == []
  {
    if log != [] {
      assert log[|log| - 1] in log;
      NoEffectsOf(log[..|log| - 1], t);
    }
  }

  lemma AllAppend(t: nat, layers: seq<nat>, next: nat, kind: Kind)
    requires next < |layers|
    ensures All(t, layers[..next + 1], kind) == All(t, layers[..next], kind) + [Effect(t, layers[next], kind)]
  {
  }

  function Affected<T>(v: Layer<T>, kind: Kind): Layer<T> {
    if kind.AppliedDraft? then Layer(v.draft.GetOr(v.committed), None) else Layer(v.committed, None)
  }

  /** The apply or discard the next step of transaction `t` makes, if any. */
  function NextEffect(t: nat, tx: Tx): Option<Effect> {
    if tx.Applying? && tx.next < |tx.layers| then Some(Effect(t, tx.layers[tx.next], AppliedDraft))
    else if tx.Dropping? && !tx.committed && tx.next < |tx.layers| then
      Some(Effect(t, tx.layers[tx.next], DiscardedDraft))
    else None
  }

  /** A step logs the effect it is expected to have, and nothing else. */
  lemma StepLogs<T>(s: State<T>, t: nat) returns (e: Option<Effect>)
    requires Ranged(s) && Enabled(s, Step(t))
    ensures Ranged(StepTx(s, t))
    ensures StepTx(s, t).log == s.log + if e.Some? then [e.value] else []
    ensures e.Some? ==> e.value.tx == t
    ensures e == NextEffect(t, s.txs[t])
    ensures Expected(t, StepTx(s, t).txs[t], |s.slots|) ==
            Expected(t, s.txs[t], |s.slots|) + if e.Some? then [e.value] else []
  {
    StepKeepsRange(s, t);
    e := NextEffect(t, s.txs[t]);
    match s.txs[t]
    case Applying(layers, next) =>
      if next < |layers| {
        AllAppend(t, layers, next, AppliedDraft);
      } else {
        assert layers[..next] == layers;
      }
    case Dropping(layers, next, committed) =>
      if next == |layers| {
        assert layers[..next] == layers;
      } else if !committed {
        AllAppend(t, layers, next, DiscardedDraft);
      }
    case _ =>
  }

  /** A step applies or discards the layer it is at, which it holds, and leaves every other value alone. */
  lemma StepTouches<T>(s: State<T>, t: nat, l: nat)
    requires Ranged(s) && Enabled(s, Step(t)) && l < |s.slots|
    ensures |StepTx(s, t).slots| == |s.slots|
    ensures var e := NextEffect(t, s.txs[t]);
      && StepTx(s, t).slots[l].value ==
           (if e.Some? && e.value.layer == l then Affected(s.slots[l].value, e.value.kind) else s.slots[l].value)
      && (e.Some? && e.value.layer == l ==> l in Holds(s.txs[t], |s.slots|))
  {
    StepKeepsRange(s, t);
    assert forall i | 0 <= i < |s.txs[t].layers| :: s.txs[t].layers[i] in s.txs[t].layers;
  }

  lemma GetsPastBegin<T>(s: State<T>, t: nat)
    requires Ranged(s) && Enabled(s, Step(t)) && |StepTx(s, t).txs| == |s.txs|
    ensures StepTx(s, t).txs[t].layers == s.txs[t].layers
    ensures PastBegin(StepTx(s, t).txs[t]) ==>
              PastBegin(s.txs[t]) || s.txs[t] == Claiming(s.txs[t].layers, |s.txs[t].layers|)
  {
    assert forall i | 0 <= i < |s.txs[t].layers| :: s.txs[t].layers[i] in s.txs[t].layers;
  }

  /** A transaction gets past begin only with claims on all its layers, hence only if they differ. */
  lemma PastBeginIsDistinct<T>(s: State<T>, t: nat)
    requires Inv(s) && Enabled(s, Step(t))
    ensures |StepTx(s, t).txs| == |s.txs|
    ensures PastBegin(StepTx(s, t).txs[t]) ==> NoRepeats(StepTx(s, t).txs[t].layers)
  {
    StepKeepsRange(s, t);
    GetsPastBegin(s, t);
    var layers := s.txs[t].layers;
    if s.txs[t] == Claiming(layers, |layers|) {
      ClaimsAreDistinct(s, t);
      assert Holds(s.txs[t], |s.slots|) == layers;
    }
  }

  lemma LoggingKeepsRecords(log: seq<Effect>, txs: seq<Tx>, slots: nat, t: nat, tx: Tx, e: Option<Effect>)
    requires (forall u | 0 <= u < |txs| :: TxRanged(txs[u], slots)) && TxRanged(tx, slots) && t < |txs|
    requires Recorded(log, txs, slots) && (PastBegin(tx) ==> NoRepeats(tx.layers))
    requires e.Some? ==> e.value.tx == t
    requires Expected(t, tx, slots) == Expected(t, txs[t], slots) + if e.Some? then [e.value] else []
    ensures Recorded(log + if e.Some? then [e.value] else [], txs[t := tx], slots)
  {
    var log', txs' := log + if e.Some? then [e.value] else [], txs[t := tx];
    forall u | 0 <= u < |txs'| ensures EffectsOf(log', u) == Expected(u, txs'[u], slots) {
      LogForEach(log, txs, slots, t, tx, e, u);
    }
    assert forall u | 0 <= u < |txs'| :: txs'[u] == if u == t then tx else txs[u];
  }

  lemma LogForEach(log: seq<Effect>, txs: seq<Tx>, slots: nat, t: nat, tx: Tx, e: Option<Effect>, u: nat)
    requires t < |txs| && u < |txs| && TxRanged(txs[u], slots) && TxRanged(txs[t], slots) && TxRanged(tx, slots)
    requires EffectsOf(log, u) == Expected(u, txs[u], slots) && (e.Some? ==> e.value.tx == t)
    requires Expected(t, tx, slots) == Expected(t, txs[t], slots) + if e.Some? then [e.value] else []
    ensures TxRanged(txs[t := tx][u], slots)
    ensures EffectsOf(log + if e.Some? then [e.value] else [], u) == Expected(u, txs[t := tx][u], slots)
  {
    if e.Some? {
      EffectsOfAppend(log, e.value, u);
    } else {
      assert log + [] == log;
    }
  }

  lemma StepKeepsInv<T>(s: State<T>, t: nat)
    requires Inv(s) && Enabled(s, Step(t))
    ensures Inv(StepTx(s, t))
  {
    StepKeepsRange(s, t);
    StepKeepsClaims(s, t);
    PastBeginIsDistinct(s, t);
    var e := StepLogs(s, t);
    LoggingKeepsRecords(s.log, s.txs, |s.slots|, t, StepTx(s, t).txs[t], e);
  }

  /** Marking a transaction as committing or rolling back touches no claim and does nothing yet. */
  lemma MarkKeepsInv<T>(s: State<T>, t: nat, tx: Tx)
    requires Inv(s) && t < |s.txs| && s.txs[t].Active?
    requires tx == Applying(s.txs[t].layers, 0) || tx == Dropping(s.txs[t].layers, 0, false)
    ensures Inv(SetTx(s, t, tx))
  {
    var s', n := SetTx(s, t, tx), |s.slots|;
    assert Ranged(s') && Holds(tx, n) == Holds(s.txs[t], n);
    forall l | 0 <= l < n ensures TotalClaims(s'.txs, n, l) == Bit(s'.slots[l].claimed) {
      ClaimsOfUpdate(s.txs, n, t, tx, l);
    }
    assert Expected(t, tx, n) == [] == Expected(t, s.txs[t], n) + [];
    LoggingKeepsRecords(s.log, s.txs, n, t, tx, None);
    assert s.log + [] == s.log;
  }

  lemma BeginKeepsRecords(log: seq<Effect>, txs: seq<Tx>, slots: nat, tx: Tx)
    requires (forall t | 0 <= t < |txs| :: TxRanged(txs[t], slots)) && TxRanged(tx, slots)
    requires Recorded(log, txs, slots) && tx.Claiming?
    ensures Recorded(log, txs + [tx], slots)
  {
    NoEffectsOf(log, |txs|);
    forall t | 0 <= t < |txs + [tx]| ensures EffectsOf(log, t) == Expected(t, (txs + [tx])[t], slots) {
      assert (txs + [tx])[t] == if t < |txs| then txs[t] else tx;
    }
  }

  lemma BeginKeepsInv<T>(s: State<T>, layers: seq<nat>)
    requires Inv(s) && forall l <- layers :: l < |s.slots|
    ensures Inv(s.(txs := s.txs + [Claiming(layers, 0)]))
  {
    var tx, n := Claiming(layers, 0), |s.slots|;
    var s' := s.(txs := s.txs + [tx]);
    assert TxRanged(tx, n) && Ranged(s');
    forall l | 0 <= l < n ensures TotalClaims(s'.txs, n, l) == Bit(s'.slots[l].claimed) {
      ClaimsOfBegin(s.txs, n, tx, l);
      assert Claims(tx, n, l) == 0;
    }
    assert Conserved(s');
    BeginKeepsRecords(s.log, s.txs, n, tx);
  }

  lemma OutsideKeepsInv<T>(s: State<T>, l: nat, value: Layer<T>)
    requires Inv(s) && l < |s.slots|
    ensures Inv(SetValue(s, l, value))
  {
    var s' := SetValue(s, l, value);
    assert s'.txs == s.txs && s'.log == s.log && |s'.slots| == |s.slots|;
    assert forall k | 0 <= k < |s.slots| :: s'.slots[k].claimed == s.slots[k].claimed;
  }

  lemma NextKeepsInv<T>(s: State<T>, act: Action<T>)
    requires Inv(s) && Enabled(s, act)
    ensures Inv(Next(s, act))
  {
    match act
    case Begin(layers) => BeginKeepsInv(s, layers);
    case Step(t) => StepKeepsInv(s, t);
    case Commit(t) => MarkKeepsInv(s, t, Applying(s.txs[t].layers, 0));
    case Rollback(t) => MarkKeepsInv(s, t, Dropping(s.txs[t].layers, 0, false));
    case EditOutside(l, f) => OutsideKeepsInv(s, l, s.slots[l].value.Edit(f));
    case ApplyOutside(l) => OutsideKeepsInv(s, l, s.slots[l].value.Apply());
    case DiscardOutside(l) => OutsideKeepsInv(s, l, s.slots[l].value.Discard());
    case UpdateOutside(l, f) => OutsideKeepsInv(s, l, s.slots[l].value.Update(f));
  }

  // ---- Whole runs -----------------------------------------------------------------------------

  ghost predicate IsInit<T>(s: State<T>) {
    s.txs == [] && s.log == [] && forall l | 0 <= l < |s.slots| :: !s.slots[l].claimed
  }

  /** Step `i` of a run, constrained only from states where the invariant makes it defined. */
  ghost predicate StepAt<T>(trace: seq<State<T>>, acts: seq<Action<T>>, i: nat)
    requires i < |acts| && |trace| == |acts| + 1
  {
    Enabled(trace[i], acts[i]) && (Inv(trace[i]) ==> trace[i + 1] == Next(trace[i], acts[i]))
  }

  ghost predicate IsRun<T>(trace: seq<State<T>>, acts: seq<Action<T>>) {
    |trace| == |acts| + 1 && IsInit(trace[0]) && forall i | 0 <= i < |acts| :: StepAt(trace, acts, i)
  }

  lemma {:induction false} RunReachesInv<T>(trace: seq<State<T>>, acts: seq<Action<T>>, i: nat)
    requires IsRun(trace, acts) && i < |trace|
    ensures Inv(trace[i])
  {
    if i > 0 {
      RunReachesInv(trace, acts, i - 1);
      assert StepAt(trace, acts, i - 1);
      NextKeepsInv(trace[i - 1], acts[i - 1]);
    }
  }

  lemma RunKeepsInv<T>(trace: seq<State<T>>, acts: seq<Action<T>>, i: nat)
    requires IsRun(trace, acts) && i < |acts|
    ensures Inv(trace[i]) && Inv(trace[i + 1])
    ensures Enabled(trace[i], acts[i]) && trace[i + 1] == Next(trace[i], acts[i])
  {
    RunReachesInv(trace, acts, i);
    RunReachesInv(trace, acts, i + 1);
    assert StepAt(trace, acts, i);
  }

  /**
   All or nothing, under any interleaving: a committed transaction has applied each of its layers once,
   in order, and a rolled-back one has discarded each once and applied none. One whose begin failed has
   done nothing and holds nothing. Naming a layer twice never gets past begin.
   */
  lemma AllOrNothing<T>(trace: seq<State<T>>, acts: seq<Action<T>>, i: nat, t: nat)
    requires IsRun(trace, acts) && i < |trace| && t < |trace[i].txs|
    ensures Inv(trace[i])
    ensures var tx, effects := trace[i].txs[t], EffectsOf(trace[i].log, t);
      var held := Holds(tx, |trace[i].slots|);
      match tx
      case Busy(_, _) => effects == [] && held == []
      case Active(layers) => effects == [] && held == layers && NoRepeats(layers)
      case Finished(layers, committed) =>
        effects == All(t, layers, if committed then AppliedDraft else DiscardedDraft) && held == [] && NoRepeats(layers)
      case _ => true
    ensures !NoRepeats(trace[i].txs[t].layers) ==> !PastBegin(trace[i].txs[t])
  {
    RunReachesInv(trace, acts, i);
  }

  /** At any moment a layer is claimed by at most one transaction, and claimed iff one holds it. */
  lemma ExclusiveClaims<T>(trace: seq<State<T>>, acts: seq<Action<T>>, i: nat, l: nat)
    requires IsRun(trace, acts) && i < |trace| && l < |trace[i].slots|
    ensures Inv(trace[i])
    ensures trace[i].slots[l].claimed <==>
              exists t :: 0 <= t < |trace[i].txs| && l in Holds(trace[i].txs[t], |trace[i].slots|)
    ensures forall t, u | 0 <= t < u < |trace[i].txs| ::
              !(l in Holds(trace[i].txs[t], |trace[i].slots|) && l in Holds(trace[i].txs[u], |trace[i].slots|))
  {
    RunReachesInv(trace, acts, i);
    var s, n := trace[i], |trace[i].slots|;
    forall t | 0 <= t < |s.txs| && l in Holds(s.txs[t], n) ensures s.slots[l].claimed {
      ClaimsAreDistinct(s, t);
    }
    if s.slots[l].claimed {
      var t := FindHolder(s.txs, n, l);
    }
    forall t, u | 0 <= t < u < |s.txs| ensures !(l in Holds(s.txs[t], n) && l in Holds(s.txs[u], n)) {
      ClaimsAreExclusive(s, t, u, l);
    }
  }

  /** The index `begin` failed on, once it has. */
  function FailedAt(tx: Tx): Option<nat> {
    match tx
    case BackingOut(_, failedAt, _) => Some(failedAt)
    case Busy(_, failedAt) => Some(failedAt)
    case _ => None
  }

  /** The transaction is about to claim its `f`-th layer and will find it claimed. */
  predicate MeetsClaimed<T>(s: State<T>, t: nat, f: nat) {
    && t < |s.txs| && s.txs[t].Claiming? && s.txs[t].next == f < |s.txs[t].layers|
    && s.txs[t].layers[f] < |s.slots| && s.slots[s.txs[t].layers[f]].claimed
  }

  lemma FailsAtClaimed<T>(s: State<T>, t: nat)
    requires Ranged(s) && Enabled(s, Step(t)) && |StepTx(s, t).txs| == |s.txs|
    requires FailedAt(StepTx(s, t).txs[t]).Some?
    ensures StepTx(s, t).txs[t].layers == s.txs[t].layers
    ensures var failed := FailedAt(StepTx(s, t).txs[t]);
            FailedAt(s.txs[t]) == failed || MeetsClaimed(s, t, failed.value)
  {
    assert forall i | 0 <= i < |s.txs[t].layers| :: s.txs[t].layers[i] in s.txs[t].layers;
  }

  lemma OtherStepsLeave<T>(s: State<T>, act: Action<T>, t: nat)
    requires Ranged(s) && Enabled(s, act) && act != Step(t)
    requires t < |Next(s, act).txs| && FailedAt(Next(s, act).txs[t]).Some?
    ensures t < |s.txs| && Next(s, act).txs[t] == s.txs[t]
  {
    if act.Step? {
      StepKeepsRange(s, act.tx);
    }
  }

  lemma {:induction false} FindFailure<T>(trace: seq<State<T>>, acts: seq<Action<T>>, i: nat, t: nat) returns (k: nat)
    requires IsRun(trace, acts) && i < |trace| && t < |trace[i].txs| && FailedAt(trace[i].txs[t]).Some?
    ensures k < i && acts[k] == Step(t) && MeetsClaimed(trace[k], t, FailedAt(trace[i].txs[t]).value)
    ensures trace[k].txs[t].layers == trace[i].txs[t].layers
  {
    assert i > 0;
    k := i - 1;
    RunKeepsInv(trace, acts, k);
    if acts[k] == Step(t) {
      StepKeepsRange(trace[k], t);
      FailsAtClaimed(trace[k], t);
    } else {
      OtherStepsLeave(trace[k], acts[k], t);
    }
    if !(acts[k] == Step(t) && MeetsClaimed(trace[k], t, FailedAt(trace[i].txs[t]).value)) {
      k := FindFailure(trace, acts, k, t);
    }
  }

  /**
   A begin fails for a reason, under any interleaving: when it came to the layer it reports, another transaction
   held that layer, or the list names it earlier too, so that the transaction held it itself.
   */
  lemma BusyHasReason<T>(trace: seq<State<T>>, acts: seq<Action<T>>, i: nat, t: nat) returns (k: nat)
    requires IsRun(trace, acts) && i < |trace| && t < |trace[i].txs| && FailedAt(trace[i].txs[t]).Some?
    ensures var layers, f := trace[i].txs[t].layers, FailedAt(trace[i].txs[t]).value;
      && k < i && acts[k] == Step(t) && Inv(trace[k])
      && t < |trace[k].txs| && trace[k].txs[t] == Claiming(layers, f) && f < |layers|
      && (layers[f] in layers[..f]
          || exists u :: 0 <= u < |trace[k].txs| && u != t && layers[f] in Holds(trace[k].txs[u], |trace[k].slots|))
  {
    k := FindFailure(trace, acts, i, t);
    ExclusiveClaims(trace, acts, k, trace[k].txs[t].layers[FailedAt(trace[i].txs[t]).value]);
  }

  lemma {:induction false} FindHolder(txs: seq<Tx>, slots: nat, l: nat) returns (t: nat)
    requires (forall u | 0 <= u < |txs| :: TxRanged(txs[u], slots)) && 0 < TotalClaims(txs, slots, l)
    ensures t < |txs| && l in Holds(txs[t], slots)
  {
    if l in Holds(txs[0], slots) {
      t := 0;
    } else {
      t := FindHolder(txs[1..], slots, l);
      t := t + 1;
    }
  }

  // ---- Effects on the layers ------------------------------------------------------------------

  /**
   A transaction step changes the value of a layer only by the effect it logs, on a layer it holds:
   applying commits the draft if there is one, discarding keeps the committed value; both end the draft.
   */
  lemma EffectsAreReal<T>(s: State<T>, t: nat) returns (e: Option<Effect>)
    requires Inv(s) && Enabled(s, Step(t))
    ensures StepTx(s, t).log == s.log + if e.Some? then [e.value] else []
    ensures e.Some? ==> e.value.tx == t && e.value.layer in Holds(s.txs[t], |s.slots|)
    ensures |StepTx(s, t).slots| == |s.slots|
    ensures forall l | 0 <= l < |s.slots| :: StepTx(s, t).slots[l].value ==
              if e.Some? && e.value.layer == l then Affected(s.slots[l].value, e.value.kind) else s.slots[l].value
  {
    e := StepLogs(s, t);
    StepKeepsRange(s, t);
    assert e.Some? ==> e.value.layer in s.txs[t].layers;
    forall l | 0 <= l < |s.slots|
      ensures StepTx(s, t).slots[l].value ==
              if e.Some? && e.value.layer == l then Affected(s.slots[l].value, e.value.kind) else s.slots[l].value
      ensures e.Some? && e.value.layer == l ==> l in Holds(s.txs[t], |s.slots|)
    {
      StepTouches(s, t, l);
    }
  }

  /** Transaction `t` holds layer `l` and is not committing. */
  predicate Stages<T>(s: State<T>, t: nat, l: nat) {
    t < |s.txs| && TxRanged(s.txs[t], |s.slots|) && !s.txs[t].Applying? && l in Holds(s.txs[t], |s.slots|)
  }

  /** The next step of transaction `t` discards the draft of layer `l`. */
  predicate Discards<T>(s: State<T>, t: nat, l: nat) {
    t < |s.txs| && NextEffect(t, s.txs[t]) == Some(Effect(t, l, DiscardedDraft))
  }

  /** An apply or an update from outside any transaction, on layer `l`. */
  predicate WritesOutside<T>(act: Action<T>, l: nat) {
    act == ApplyOutside(l) || (act.UpdateOutside? && act.layer == l)
  }

  /** The same for a step of a transaction: that one discards at most, and others stay off the layer. */
  lemma StepLeavesHeldLayer<T>(s: State<T>, u: nat, t: nat, l: nat)
    requires Inv(s) && Enabled(s, Step(u)) && Stages(s, t, l) && l < |s.slots|
    ensures |StepTx(s, u).slots| == |s.slots|
    ensures StepTx(s, u).slots[l].value.committed == s.slots[l].value.committed
    ensures u == t && Discards(s, t, l) ==> StepTx(s, u).slots[l].value == Layer(s.slots[l].value.committed, None)
  {
    StepTouches(s, u, l);
    if u != t {
      ClaimsAreExclusive(s, t, u, l);
    }
  }

  /**
   While a transaction that is not committing holds a layer, no transaction writes it: only an apply
   or an update from outside can change the committed value.
   */
  lemma HeldLayerIsUnwritten<T>(s: State<T>, act: Action<T>, t: nat, l: nat)
    requires Inv(s) && Enabled(s, act) && Stages(s, t, l) && !WritesOutside(act, l)
    ensures l < |s.slots| == |Next(s, act).slots|
    ensures Next(s, act).slots[l].value.committed == s.slots[l].value.committed
    ensures act == Step(t) && Discards(s, t, l) ==>
              Next(s, act).slots[l].value == Layer(s.slots[l].value.committed, None)
  {
    assert l in s.txs[t].layers;
    if act.Step? {
      StepLeavesHeldLayer(s, act.tx, t, l);
    }
  }

  lemma RunStepKeepsCommitted<T>(trace: seq<State<T>>, acts: seq<Action<T>>, k: nat, t: nat, l: nat)
    requires IsRun(trace, acts) && k < |acts| && Stages(trace[k], t, l) && !WritesOutside(acts[k], l)
    ensures l < |trace[k].slots| == |trace[k + 1].slots|
    ensures trace[k + 1].slots[l].value.committed == trace[k].slots[l].value.committed
    ensures acts[k] == Step(t) && Discards(trace[k], t, l) ==>
              trace[k + 1].slots[l].value == Layer(trace[k].slots[l].value.committed, None)
  {
    RunKeepsInv(trace, acts, k);
    HeldLayerIsUnwritten(trace[k], acts[k], t, l);
  }

  lemma {:induction false} HeldStaysCommitted<T>(trace: seq<State<T>>, acts: seq<Action<T>>,
                                                 i: nat, j: nat, t: nat, l: nat)
    requires IsRun(trace, acts) && i <= j < |trace| && l < |trace[i].slots|
    requires forall k | i <= k < j :: Stages(trace[k], t, l) && !WritesOutside(acts[k], l)
    ensures l < |trace[j].slots| && trace[j].slots[l].value.committed == trace[i].slots[l].value.committed
    decreases j
  {
    if i < j {
      HeldStaysCommitted(trace, acts, i, j - 1, t, l);
      RunStepKeepsCommitted(trace, acts, j - 1, t, l);
    }
  }

  /**
   Rolling back restores a layer. From any moment on while the transaction holds it without committing,
   the committed value is unchanged unless somebody outside wrote it; and when the last step was the
   transaction's own discard of that layer, it has no draft either.
   */
  lemma RollbackRestores<T>(trace: seq<State<T>>, acts: seq<Action<T>>, i: nat, j: nat, t: nat, l: nat)
    requires IsRun(trace, acts) && i <= j < |trace| && l < |trace[i].slots|
    requires forall k | i <= k < j :: Stages(trace[k], t, l) && !WritesOutside(acts[k], l)
    ensures l < |trace[j].slots| && trace[j].slots[l].value.committed == trace[i].slots[l].value.committed
    ensures i < j && acts[j - 1] == Step(t) && Discards(trace[j - 1], t, l) ==>
              trace[j].slots[l].value == Layer(trace[i].slots[l].value.committed, None)
  {
    HeldStaysCommitted(trace, acts, i, j, t, l);
    if i < j {
      HeldStaysCommitted(trace, acts, i, j - 1, t, l);
      RunStepKeepsCommitted(trace, acts, j - 1, t, l);
    }
  }

  /** The transaction is on the way to applying layer `l`: it has neither failed nor rolled back, nor applied it. */
  predicate OnTheWay(tx: Tx, slots: nat, l: nat)
    requires TxRanged(tx, slots)
  {
    match tx
    case Claiming(_, _) => true
    case Active(_) => true
    case Applying(layers, next) => l !in layers[..next]
    case _ => false
  }

  predicate TouchesOutside<T>(act: Action<T>, l: nat) {
    WritesOutside(act, l) || (act.EditOutside? && act.layer == l) || act == DiscardOutside(l)
  }

  lemma WasOnTheWayItself<T>(s: State<T>, t: nat, l: nat)
    requires Ranged(s) && Enabled(s, Step(t)) && Ranged(StepTx(s, t)) && |StepTx(s, t).txs| == |s.txs|
    requires |StepTx(s, t).slots| == |s.slots| && OnTheWay(StepTx(s, t).txs[t], |s.slots|, l)
    ensures OnTheWay(s.txs[t], |s.slots|, l) && NextEffect(t, s.txs[t]) != Some(Effect(t, l, AppliedDraft))
  {
    assert forall i | 0 <= i < |s.txs[t].layers| :: s.txs[t].layers[i] in s.txs[t].layers;
  }

  /** A transaction that is on the way after a step was so before it, and the step did not apply its layer. */
  lemma WasOnTheWay<T>(s: State<T>, act: Action<T>, t: nat, l: nat)
    requires Inv(s) && Enabled(s, act) && t < |s.txs| && Inv(Next(s, act))
    ensures t < |Next(s, act).txs|
    ensures OnTheWay(Next(s, act).txs[t], |Next(s, act).slots|, l) ==>
              OnTheWay(s.txs[t], |s.slots|, l)
              && (act == Step(t) ==> NextEffect(t, s.txs[t]) != Some(Effect(t, l, AppliedDraft)))
  {
    if act.Step? {
      StepKeepsRange(s, act.tx);
      if act.tx == t && OnTheWay(StepTx(s, t).txs[t], |s.slots|, l) {
        WasOnTheWayItself(s, t, l);
      }
    }
  }

  /** On the way a transaction gives no claim back. */
  lemma HoldsNoLess<T>(s: State<T>, act: Action<T>, t: nat, l: nat)
    requires Ranged(s) && Enabled(s, act) && t < |s.txs| && OnTheWay(s.txs[t], |s.slots|, l)
    requires t < |Next(s, act).txs| && TxRanged(Next(s, act).txs[t], |s.slots|)
    requires OnTheWay(Next(s, act).txs[t], |s.slots|, l)
    ensures var tx, tx' := s.txs[t], Next(s, act).txs[t];
      tx'.layers == tx.layers && HeldFrom(tx) == HeldFrom(tx') && HeldTo(tx) <= HeldTo(tx')
  {
    if act.Step? {
      StepKeepsRange(s, act.tx);
    }
  }

  lemma KeepsHolding<T>(s: State<T>, act: Action<T>, t: nat, l: nat)
    requires Ranged(s) && Enabled(s, act) && t < |s.txs| && OnTheWay(s.txs[t], |s.slots|, l)
    requires t < |Next(s, act).txs| && TxRanged(Next(s, act).txs[t], |s.slots|)
    requires OnTheWay(Next(s, act).txs[t], |s.slots|, l)
    requires l in Holds(s.txs[t], |s.slots|)
    ensures l in Holds(Next(s, act).txs[t], |s.slots|)
  {
    HoldsNoLess(s, act, t, l);
    var tx, tx' := s.txs[t], Next(s, act).txs[t];
    var i :| HeldFrom(tx) <= i < HeldTo(tx) && tx.layers[i] == l;
    assert Holds(tx', |s.slots|)[i - HeldFrom(tx)] == l;
  }

  /** What is held and not yet applied nobody else touches. */
  lemma HeldIsUntouched<T>(s: State<T>, act: Action<T>, t: nat, l: nat)
    requires Inv(s) && Enabled(s, act) && t < |s.txs| && l in Holds(s.txs[t], |s.slots|)
    requires OnTheWay(s.txs[t], |s.slots|, l) && !TouchesOutside(act, l)
    requires act == Step(t) ==> NextEffect(t, s.txs[t]) != Some(Effect(t, l, AppliedDraft))
    ensures l < |s.slots| == |Next(s, act).slots|
    ensures Next(s, act).slots[l].value == s.slots[l].value
  {
    assert l in s.txs[t].layers;
    if act.Step? {
      StepTouches(s, act.tx, l);
      if act.tx != t {
        ClaimsAreExclusive(s, t, act.tx, l);
      }
    }
  }

  lemma {:induction false} TransactionsStay<T>(trace: seq<State<T>>, acts: seq<Action<T>>, i: nat, j: nat)
    requires IsRun(trace, acts) && i <= j < |trace|
    ensures |trace[i].txs| <= |trace[j].txs|
    decreases j
  {
    if i < j {
      TransactionsStay(trace, acts, i, j - 1);
      RunKeepsInv(trace, acts, j - 1);
      if acts[j - 1].Step? {
        StepKeepsRange(trace[j - 1], acts[j - 1].tx);
      }
    }
  }

  lemma {:induction false} StagedStays<T>(trace: seq<State<T>>, acts: seq<Action<T>>, i: nat, j: nat, t: nat, l: nat)
    requires IsRun(trace, acts) && i <= j < |trace| && Inv(trace[i]) && Inv(trace[j])
    requires t < |trace[i].txs| && l in Holds(trace[i].txs[t], |trace[i].slots|)
    requires t < |trace[j].txs| && OnTheWay(trace[j].txs[t], |trace[j].slots|, l)
    requires forall k | i <= k < j :: !TouchesOutside(acts[k], l)
    ensures l in Holds(trace[j].txs[t], |trace[j].slots|) && l < |trace[i].slots| == |trace[j].slots|
    ensures trace[j].slots[l].value == trace[i].slots[l].value
    decreases j
  {
    if i < j {
      RunKeepsInv(trace, acts, j - 1);
      TransactionsStay(trace, acts, i, j - 1);
      WasOnTheWay(trace[j - 1], acts[j - 1], t, l);
      StagedStays(trace, acts, i, j - 1, t, l);
      HeldIsUntouched(trace[j - 1], acts[j - 1], t, l);
      KeepsHolding(trace[j - 1], acts[j - 1], t, l);
    } else {
      assert l in trace[i].txs[t].layers;
    }
  }

  /**
   Committing installs what was staged. From any moment on at which the transaction holds the layer, if nobody
   outside touches it until the transaction applies it, then that apply commits the latest value the layer had at
   that moment and leaves no draft.
   */
  lemma CommitInstalls<T>(trace: seq<State<T>>, acts: seq<Action<T>>, i: nat, j: nat, t: nat, l: nat)
    requires IsRun(trace, acts) && i <= j < |acts| && Inv(trace[i])
    requires t < |trace[i].txs| && l in Holds(trace[i].txs[t], |trace[i].slots|)
    requires forall k | i <= k < j :: !TouchesOutside(acts[k], l)
    requires acts[j] == Step(t) && t < |trace[j].txs|
    requires NextEffect(t, trace[j].txs[t]) == Some(Effect(t, l, AppliedDraft))
    ensures l < |trace[i].slots| == |trace[j + 1].slots|
    ensures var was := trace[i].slots[l].value;
            trace[j + 1].slots[l].value == Layer(was.draft.GetOr(was.committed), None)
  {
    RunKeepsInv(trace, acts, j);
    assert OnTheWay(trace[j].txs[t], |trace[j].slots|, l) by {
      assert NoRepeats(trace[j].txs[t].layers);
    }
    StagedStays(trace, acts, i, j, t, l);
    StepTouches(trace[j], t, l);
  }
}
