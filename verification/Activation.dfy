/** Sending a plan's activations to the core, in passes that retry only what has not succeeded yet. */
module Activation {
  import opened Basics
  import opened Selection
  import opened SelectionLaws

  type Activations = seq<(string, string)>

  predicate IsCompleted(a: (string, string), completed: map<string, string>) {
    a.0 in completed && completed[a.0] == a.1
  }

  /** What is still to be sent. */
  function Remaining(activations: Activations, completed: map<string, string>): Activations {
    if activations == [] then []
    else (if IsCompleted(activations[0], completed) then [] else [activations[0]])
         + Remaining(activations[1..], completed)
  }

  /** The record of successes after sending `sent` and getting the answers `accepted`. */
  function Completed(sent: Activations, accepted: seq<bool>, completed: map<string, string>): map<string, string>
    requires |sent| == |accepted|
  {
    if sent == [] then completed
    else
      var n := |sent| - 1;
      var before := Completed(sent[..n], accepted[..n], completed);
      if accepted[n] then before[sent[n].0 := sent[n].1] else before
  }

  function Failed(sent: Activations, accepted: seq<bool>): Activations
    requires |sent| == |accepted|
  {
    if sent == [] then [] else (if accepted[0] then [] else [sent[0]]) + Failed(sent[1..], accepted[1..])
  }

  function Accepted(accepted: seq<bool>): nat {
    if accepted == [] then 0
    else Accepted(accepted[..|accepted| - 1]) + if accepted[|accepted| - 1] then 1 else 0
  }

  /** Generation loads a pass makes: before each request, after each success, and after each request. */
  function LoadsNeeded(accepted: seq<bool>): nat {
    2 * |accepted| + Accepted(accepted)
  }

  method RemainingActivations(activations: Activations, completed: map<string, string>) returns (r: Activations)
    ensures r == Remaining(activations, completed)
  {
    r := [];
    for i := |activations| downto 0
      invariant r == Remaining(activations[i..], completed)
    {
      assert activations[i..][1..] == activations[i + 1..];
      if !IsCompleted(activations[i], completed) {
        r := [activations[i]] + r;
      }
    }
  }

  /**
   One pass. `accepted` are the core's answers and `loads` is how many loads of the generation counter
   still find this pass the current one. The pass runs to its end iff that many suffice; then it reports
   the number of successes and has recorded them all. Superseded, it has recorded a prefix of them.
   */
  method ApplyActivations(activations: Activations, completed: map<string, string>, accepted: seq<bool>, loads: nat)
    returns (count: Option<nat>, completed': map<string, string>)
    requires |accepted| == |Remaining(activations, completed)|
    ensures count.Some? <==> LoadsNeeded(accepted) <= loads
    ensures count.Some? ==> count.value == Accepted(accepted)
    ensures count.Some? ==> completed' == Completed(Remaining(activations, completed), accepted, completed)
    ensures exists k | 0 <= k <= |accepted| ::
              completed' == Completed(Remaining(activations, completed)[..k], accepted[..k], completed)
  {
    var sent := RemainingActivations(activations, completed);
    var left := loads;
    var activated := 0;
    completed' := completed;
    for i := 0 to |sent|
      invariant activated == Accepted(accepted[..i])
      invariant left == loads - LoadsNeeded(accepted[..i]) && 0 <= left
      invariant completed' == Completed(sent[..i], accepted[..i], completed)
    {
      assert accepted[..i + 1][..i] == accepted[..i] && sent[..i + 1][..i] == sent[..i];
      NeedsMoreLoads(accepted, i);
      if left == 0 {
        return None, completed';
      }
      left := left - 1;
      if accepted[i] {
        if left == 0 {
          return None, completed';
        }
        left := left - 1;
        completed' := completed'[sent[i].0 := sent[i].1];
        activated := activated + 1;
      }
      if left == 0 {
        return None, completed';
      }
      left := left - 1;
    }
    assert accepted[..|sent|] == accepted && sent[..|sent|] == sent;
    count := Some(activated);
  }

  lemma {:induction false} NeedsMoreLoads(accepted: seq<bool>, i: nat)
    requires i < |accepted|
    ensures LoadsNeeded(accepted[..i + 1]) == LoadsNeeded(accepted[..i]) + 2 + if accepted[i] then 1 else 0
    ensures LoadsNeeded(accepted[..i + 1]) <= LoadsNeeded(accepted)
    decreases |accepted| - i
  {
    assert accepted[..i + 1][..i] == accepted[..i];
    if i + 1 < |accepted| {
      NeedsMoreLoads(accepted, i + 1);
    } else {
      assert accepted[..i + 1] == accepted;
    }
  }

  /** No two activations of a plan are for the same group. */
  ghost predicate EachGroupOnce(activations: Activations) {
    forall i, j | 0 <= i < j < |activations| :: activations[i].0 != activations[j].0
  }

  lemma {:induction false} PlanActivatesEachGroupOnce(items: seq<Selected>, previous: Option<Proxies>, proxies: Proxies)
    requires OnePerGroup(items)
    ensures EachGroupOnce(JudgeAll(items, previous, proxies).activations)
  {
    if items != [] {
      var n := |items| - 1;
      PlanActivatesEachGroupOnce(items[..n], previous, proxies);
      forall a <- JudgeAll(items[..n], previous, proxies).activations ensures Some(a.0) != items[n].name {
        var i := ActivationsAreOf(items[..n], previous, proxies, a);
        assert items[i] == items[..n][i];
      }
    }
  }

  lemma {:induction false} CompletedIff(sent: Activations, accepted: seq<bool>, completed: map<string, string>, i: nat)
    requires |sent| == |accepted| && i < |sent| && EachGroupOnce(sent)
    requires forall a <- sent :: !IsCompleted(a, completed)
    ensures IsCompleted(sent[i], Completed(sent, accepted, completed)) <==> accepted[i]
  {
    var n := |sent| - 1;
    if i < n {
      assert sent[..n][i] == sent[i];
      CompletedIff(sent[..n], accepted[..n], completed, i);
    } else {
      UntouchedByOthers(sent[..n], accepted[..n], completed, sent[n].0);
      assert sent[n] in sent;
    }
  }

  lemma {:induction false} UntouchedByOthers(sent: Activations, accepted: seq<bool>, completed: map<string, string>,
                                             group: string)
    requires |sent| == |accepted| && forall a <- sent :: a.0 != group
    ensures var after := Completed(sent, accepted, completed);
            (group in after <==> group in completed) && (group in completed ==> after[group] == completed[group])
  {
    if sent != [] {
      var n := |sent| - 1;
      assert sent[n] in sent;
      UntouchedByOthers(sent[..n], accepted[..n], completed, group);
    }
  }

  lemma {:induction false} RemainingIsFrom(activations: Activations, completed: map<string, string>)
    ensures forall a <- Remaining(activations, completed) :: a in activations && !IsCompleted(a, completed)
    ensures EachGroupOnce(activations) ==> EachGroupOnce(Remaining(activations, completed))
  {
    if activations != [] {
      RemainingIsFrom(activations[1..], completed);
      var r, tail := Remaining(activations, completed), Remaining(activations[1..], completed);
      if EachGroupOnce(activations) {
        assert forall i | 0 <= i < |activations[1..]| :: activations[1..][i] == activations[i + 1];
        forall i, j | 0 <= i < j < |r| ensures r[i].0 != r[j].0 {
          if r != tail {
            assert r[j] == tail[j - 1] && tail[j - 1] in activations[1..];
            assert i > 0 ==> r[i] == tail[i - 1];
          }
        }
      }
    }
  }

  lemma {:induction false} RemainingWhenEach(activations: Activations, completed: map<string, string>, done: seq<bool>)
    requires |done| == |activations|
    requires forall i | 0 <= i < |done| :: IsCompleted(activations[i], completed) <==> done[i]
    ensures Remaining(activations, completed) == Failed(activations, done)
  {
    if activations != [] {
      assert forall i | 0 <= i < |done[1..]| ::
               done[1..][i] == done[i + 1] && activations[1..][i] == activations[i + 1];
      RemainingWhenEach(activations[1..], completed, done[1..]);
    }
  }

  /** What is still to be sent is every activation whose group is not recorded with that very node. */
  lemma {:induction false} RemainingIff(activations: Activations, completed: map<string, string>, a: (string, string))
    ensures a in Remaining(activations, completed) <==>
            a in activations && !(a.0 in completed && completed[a.0] == a.1)
  {
    if activations != [] {
      RemainingIff(activations[1..], completed, a);
      assert activations == [activations[0]] + activations[1..];
    }
  }

  /** The successes counted are the activations sent that did not fail. */
  lemma {:induction false} SuccessesAreCounted(sent: Activations, accepted: seq<bool>)
    requires |sent| == |accepted|
    ensures Accepted(accepted) + |Failed(sent, accepted)| == |sent|
  {
    if sent != [] {
      SuccessesAreCounted(sent[1..], accepted[1..]);
      AcceptedFirst(accepted);
    }
  }

  lemma {:induction false} AcceptedFirst(accepted: seq<bool>)
    requires accepted != []
    ensures Accepted(accepted) == Accepted(accepted[1..]) + if accepted[0] then 1 else 0
  {
    var n := |accepted| - 1;
    if n > 0 {
      AcceptedFirst(accepted[..n]);
      assert accepted[..n][1..] == accepted[1..][..n - 1];
    }
  }

  lemma {:induction false} RemainingOfRemaining(activations: Activations, completed: map<string, string>,
                                                completed': map<string, string>)
    requires forall a <- activations | IsCompleted(a, completed) :: IsCompleted(a, completed')
    ensures Remaining(activations, completed') == Remaining(Remaining(activations, completed), completed')
  {
    if activations != [] {
      assert activations[0] in activations;
      RemainingOfRemaining(activations[1..], completed, completed');
      var tail := Remaining(activations[1..], completed);
      if !IsCompleted(activations[0], completed) {
        assert Remaining(activations, completed)[1..] == tail;
      } else {
        assert Remaining(activations, completed) == tail;
      }
    }
  }

  /**
   A later pass over the same plan sends exactly what failed: nothing that succeeded is sent again, and
   nothing that failed is forgotten.
   */
  lemma RetryOnlyFailures(activations: Activations, completed: map<string, string>, accepted: seq<bool>)
    requires EachGroupOnce(activations) && |accepted| == |Remaining(activations, completed)|
    ensures var sent := Remaining(activations, completed);
            Remaining(activations, Completed(sent, accepted, completed)) == Failed(sent, accepted)
  {
    var sent := Remaining(activations, completed);
    var completed' := Completed(sent, accepted, completed);
    RemainingIsFrom(activations, completed);
    forall i | 0 <= i < |sent| ensures IsCompleted(sent[i], completed') <==> accepted[i] {
      CompletedIff(sent, accepted, completed, i);
    }
    RemainingWhenEach(sent, completed', accepted);
    forall a <- activations | IsCompleted(a, completed) ensures IsCompleted(a, completed') {
      forall b <- sent ensures b.0 != a.0 {
        var i, j :| 0 <= i < |activations| && 0 <= j < |activations| && activations[i] == a && activations[j] == b;
      }
      UntouchedByOthers(sent, accepted, completed, a.0);
    }
    RemainingOfRemaining(activations, completed, completed');
  }

  /** Every plan qualifies. */
  lemma PlanRetriesOnlyFailures(selected: seq<Selected>, previous: Option<Proxies>, proxies: Proxies,
                                completed: map<string, string>, accepted: seq<bool>)
    requires |accepted| == |Remaining(Reconcile(selected, previous, proxies).activations, completed)|
    ensures var activations := Reconcile(selected, previous, proxies).activations;
            var sent := Remaining(activations, completed);
            Remaining(activations, Completed(sent, accepted, completed)) == Failed(sent, accepted)
  {
    LastOfEachIsOnePerGroup(selected);
    PlanActivatesEachGroupOnce(LastOfEach(selected), previous, proxies);
    RetryOnlyFailures(Reconcile(selected, previous, proxies).activations, completed, accepted);
  }
}
