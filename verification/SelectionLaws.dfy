/** Laws of the selection repair: it converges, counts its own changes, and confirms before it drops. */
module SelectionLaws {
  import opened Basics
  import opened Selection

  // ---- The repair count -----------------------------------------------------------------------

  /** A replaced record really changes. */
  lemma ReplacementDiffers(item: Selected, previous: Option<Proxies>, proxies: Proxies)
    ensures var v := Judge(item, previous, proxies); v.Replace? ==> KeptBy(item, v) != [item]
  {
    var v := Judge(item, previous, proxies);
    if v.Replace? {
      assert item.now != Some(v.node);
      assert item.(now := Some(v.node)).now == Some(v.node);
    }
  }

  lemma {:induction false} RepairsCountChanges(items: seq<Selected>, previous: Option<Proxies>, proxies: Proxies)
    ensures var plan := JudgeAll(items, previous, proxies);
            && |plan.selected| <= |items|
            && (plan.repaired == 0 <==> plan.selected == items)
  {
    if items != [] {
      var n := |items| - 1;
      RepairsCountChanges(items[..n], previous, proxies);
      ReplacementDiffers(items[n], previous, proxies);
      assert items == items[..n] + [items[n]];
      var before, plan := JudgeAll(items[..n], previous, proxies), JudgeAll(items, previous, proxies);
      if plan.selected == items {
        assert |before.selected| == n;
        assert before.selected == plan.selected[..n];
        assert plan.selected[n..] == [items[n]];
      }
    }
  }

  /** The count of repairs is zero exactly when the plan would write the list it was given. */
  lemma NoRepairsMeansUnchanged(selected: seq<Selected>, previous: Option<Proxies>, proxies: Proxies)
    ensures var plan := Reconcile(selected, previous, proxies);
            plan.repaired == 0 <==> plan.selected == selected
  {
    UniqueIsShorter(selected);
    RepairsCountChanges(LastOfEach(selected), previous, proxies);
  }

  // ---- One record per group -------------------------------------------------------------------

  /** Every record names a group, and no two the same. */
  ghost predicate OnePerGroup(items: seq<Selected>) {
    && (forall i | 0 <= i < |items| :: items[i].name.Some?)
    && (forall i, j | 0 <= i < j < |items| :: items[i].name != items[j].name)
  }

  lemma {:induction false} LastOfEachIsOnePerGroup(selected: seq<Selected>)
    ensures OnePerGroup(LastOfEach(selected))
    ensures forall name :: Names(LastOfEach(selected), name) <==> Names(selected, name)
  {
    if selected != [] {
      LastOfEachIsOnePerGroup(selected[1..]);
      var tail, all := LastOfEach(selected[1..]), LastOfEach(selected);
      NamesOfTail(selected);
      if all != tail {
        assert all[1..] == tail;
        NamesOfTail(all);
        forall j | 1 <= j < |all| ensures all[0].name != all[j].name {
          assert all[j] == tail[j - 1] && Names(tail, tail[j - 1].name.value);
        }
      }
    }
  }

  lemma {:induction false} OnePerGroupIsKept(items: seq<Selected>)
    requires OnePerGroup(items)
    ensures LastOfEach(items) == items
  {
    if items != [] {
      assert forall i | 0 <= i < |items[1..]| :: items[1..][i] == items[i + 1];
      OnePerGroupIsKept(items[1..]);
    }
  }

  /** The plan keeps at most one record per group, for groups that had one. */
  lemma {:induction false} PlanIsOnePerGroup(items: seq<Selected>, previous: Option<Proxies>, proxies: Proxies)
    requires OnePerGroup(items)
    ensures OnePerGroup(JudgeAll(items, previous, proxies).selected)
    ensures forall k <- JudgeAll(items, previous, proxies).selected ::
              k.name.Some? && Names(items, k.name.value)
  {
    if items != [] {
      var n := |items| - 1;
      PlanIsOnePerGroup(items[..n], previous, proxies);
      var before, plan := JudgeAll(items[..n], previous, proxies).selected, JudgeAll(items, previous, proxies).selected;
      forall k <- before ensures Names(items, k.name.value) && k.name != items[n].name {
        var i :| 0 <= i < n && items[..n][i].name == Some(k.name.value);
        assert items[i].name == k.name;
      }
      assert items[n].name == Some(items[n].name.value);
      forall i, j | 0 <= i < j < |plan| ensures plan[i].name != plan[j].name {
        assert i < |before| ==> plan[i] in before;
        assert j < |before| ==> plan[j] == before[j] && plan[i] == before[i];
      }
    }
  }

  // ---- The choice of a group ------------------------------------------------------------------

  /** The choice a restore would honour: the last record naming the group. */
  function Choice(selected: seq<Selected>, group: string): Option<Option<string>> {
    if selected == [] then None
    else if selected[|selected| - 1].name == Some(group) then Some(selected[|selected| - 1].now)
    else Choice(selected[..|selected| - 1], group)
  }

  lemma {:induction false} ChoiceIff(selected: seq<Selected>, group: string, i: nat)
    requires i < |selected| && selected[i].name == Some(group)
    requires forall k | i < k < |selected| :: selected[k].name != Some(group)
    ensures Choice(selected, group) == Some(selected[i].now)
  {
    if i < |selected| - 1 {
      ChoiceIff(selected[..|selected| - 1], group, i);
    }
  }

  lemma {:induction false} LastRecord(selected: seq<Selected>, group: string) returns (i: nat)
    requires Choice(selected, group).Some?
    ensures i < |selected| && selected[i].name == Some(group) && Choice(selected, group) == Some(selected[i].now)
    ensures forall k | i < k < |selected| :: selected[k].name != Some(group)
  {
    if selected[|selected| - 1].name == Some(group) {
      i := |selected| - 1;
    } else {
      i := LastRecord(selected[..|selected| - 1], group);
    }
  }

  // ---- Convergence ----------------------------------------------------------------------------

  /** What the core reports once every activation has been carried out. */
  function Activated(proxies: Proxies, activations: seq<(string, string)>): Proxies {
    if activations == [] then proxies
    else
      var p := Activated(proxies, activations[..|activations| - 1]);
      var (name, node) := activations[|activations| - 1];
      if name in p then p[name := p[name].(now := Some(node))] else p
  }

  function NowAfter(item: Selected, v: Verdict, group: Group): Option<string> {
    if v.Activate? then item.now else group.now
  }

  /** The core after activation, as far as one record is concerned. */
  predicate ActivatedFor(item: Selected, previous: Option<Proxies>, proxies: Proxies, proxies': Proxies) {
    item.name.Some? ==>
      var name := item.name.value;
      && (name in proxies <==> name in proxies')
      && (name in proxies ==>
            proxies'[name] == proxies[name].(now := NowAfter(item, Judge(item, previous, proxies), proxies[name])))
  }

  /** One more record: what the plan for all of them is, from the plan for those before it. */
  lemma JudgeAllStep(items: seq<Selected>, previous: Option<Proxies>, proxies: Proxies, v: Verdict)
    requires items != [] && Judge(items[|items| - 1], previous, proxies) == v
    ensures var n := |items| - 1;
            var before, plan := JudgeAll(items[..n], previous, proxies), JudgeAll(items, previous, proxies);
            && plan.selected == before.selected + KeptBy(items[n], v)
            && plan.activations == before.activations + ActivatedBy(items[n], v)
            && plan.repaired == before.repaired + RepairsOf(v)
  {
  }

  /** Every record's group is as the plan's activations should leave it, and no other group changed. */
  ghost predicate Reached(items: seq<Selected>, previous: Option<Proxies>, proxies: Proxies, proxies': Proxies) {
    && proxies'.Keys == proxies.Keys
    && (forall i | 0 <= i < |items| :: ActivatedFor(items[i], previous, proxies, proxies'))
    && (forall name <- proxies | !Names(items, name) :: proxies'[name] == proxies[name])
  }

  lemma ActivatedAppend(proxies: Proxies, activations: seq<(string, string)>, a: (string, string))
    ensures var p := Activated(proxies, activations);
            Activated(proxies, activations + [a]) == if a.0 in p then p[a.0 := p[a.0].(now := Some(a.1))] else p
  {
    assert (activations + [a])[..|activations + [a]| - 1] == activations;
  }

  /** One more record, of a group not met before. */
  lemma ReachesOneMore(items: seq<Selected>, previous: Option<Proxies>, proxies: Proxies, p: Proxies, p': Proxies)
    requires OnePerGroup(items) && items != []
    requires Reached(items[..|items| - 1], previous, proxies, p)
    requires var item := items[|items| - 1];
             p' == if Judge(item, previous, proxies).Activate? && item.name.Some? && item.name.value in p
                   then p[item.name.value := p[item.name.value].(now := item.now)] else p
    ensures Reached(items, previous, proxies, p')
  {
    var n := |items| - 1;
    var item := items[n];
    assert item.name == Some(item.name.value);
    assert item.name.value in proxies ==> p[item.name.value] == proxies[item.name.value] by {
      assert !Names(items[..n], item.name.value);
    }
    forall i | 0 <= i < n ensures ActivatedFor(items[i], previous, proxies, p') {
      assert items[..n][i] == items[i] && items[i].name != item.name;
      assert ActivatedFor(items[i], previous, proxies, p);
    }
    forall name <- proxies | !Names(items, name) ensures p'[name] == proxies[name] {
      NamesOfPrefix(items, n, name);
    }
  }

  lemma {:induction false} ActivationsReachTheirGroups(items: seq<Selected>, previous: Option<Proxies>,
                                                       proxies: Proxies)
    requires OnePerGroup(items)
    ensures Reached(items, previous, proxies, Activated(proxies, JudgeAll(items, previous, proxies).activations))
  {
    if items != [] {
      var n := |items| - 1;
      var item, v := items[n], Judge(items[n], previous, proxies);
      var before := JudgeAll(items[..n], previous, proxies).activations;
      var after := JudgeAll(items, previous, proxies).activations;
      ActivationsReachTheirGroups(items[..n], previous, proxies);
      JudgeAllStep(items, previous, proxies, v);
      if v.Activate? {
        ActivatedNamesBoth(item, previous, proxies);
        ActivatedAppend(proxies, before, (item.name.value, item.now.value));
      } else {
        assert after == before;
      }
      ReachesOneMore(items, previous, proxies, Activated(proxies, before), Activated(proxies, after));
    }
  }

  lemma ActivatedNamesBoth(item: Selected, previous: Option<Proxies>, proxies: Proxies)
    requires Judge(item, previous, proxies).Activate?
    ensures item.name.Some? && item.now.Some? && item.name.value in proxies
  {
  }

  lemma NamesOfPrefix(items: seq<Selected>, n: nat, name: string)
    requires n <= |items|
    ensures Names(items[..n], name) ==> Names(items, name)
  {
    if Names(items[..n], name) {
      var i :| 0 <= i < n && items[..n][i].name == Some(name);
      assert items[i].name == Some(name);
    }
  }

  /** Once activated, a kept or repaired record needs nothing more. */
  lemma KeptRecordIsSettled(item: Selected, previous: Option<Proxies>, proxies: Proxies, proxies': Proxies)
    requires ActivatedFor(item, previous, proxies, proxies')
    ensures forall k <- KeptBy(item, Judge(item, previous, proxies)) :: Judge(k, previous, proxies') == Keep
  {
  }

  ghost predicate AllKept(items: seq<Selected>, previous: Option<Proxies>, proxies: Proxies) {
    forall i {:trigger Judge(items[i], previous, proxies)} | 0 <= i < |items| ::
      Judge(items[i], previous, proxies) == Keep
  }

  lemma AllKeptAppend(a: seq<Selected>, b: seq<Selected>, previous: Option<Proxies>, proxies: Proxies)
    requires AllKept(a, previous, proxies) && forall k <- b :: Judge(k, previous, proxies) == Keep
    ensures AllKept(a + b, previous, proxies)
  {
    forall i | 0 <= i < |a + b| ensures Judge((a + b)[i], previous, proxies) == Keep {
      assert (a + b)[i] == if i < |a| then a[i] else b[i - |a|];
      assert i >= |a| ==> b[i - |a|] in b;
    }
  }

  lemma AllKeptPrefix(items: seq<Selected>, n: nat, previous: Option<Proxies>, proxies: Proxies)
    requires AllKept(items, previous, proxies) && n <= |items|
    ensures AllKept(items[..n], previous, proxies)
  {
    forall i | 0 <= i < n ensures Judge(items[..n][i], previous, proxies) == Keep {
      assert items[..n][i] == items[i];
    }
  }

  lemma {:induction false} PlanIsSettled(items: seq<Selected>, previous: Option<Proxies>,
                                         proxies: Proxies, proxies': Proxies)
    requires forall i | 0 <= i < |items| :: ActivatedFor(items[i], previous, proxies, proxies')
    ensures AllKept(JudgeAll(items, previous, proxies).selected, previous, proxies')
  {
    if items != [] {
      var n := |items| - 1;
      var v := Judge(items[n], previous, proxies);
      PlanIsSettled(items[..n], previous, proxies, proxies');
      KeptRecordIsSettled(items[n], previous, proxies, proxies');
      JudgeAllStep(items, previous, proxies, v);
      AllKeptAppend(JudgeAll(items[..n], previous, proxies).selected, KeptBy(items[n], v), previous, proxies');
    }
  }

  lemma KeepingOne(front: seq<Selected>, item: Selected, plan: Plan)
    requires plan.selected == front + KeptBy(item, Keep)
    requires plan.activations == [] + ActivatedBy(item, Keep) && plan.repaired == RepairsOf(Keep)
    ensures plan == Plan(front + [item], [], 0)
  {
  }

  lemma KeepingOneMore(front: seq<Selected>, item: Selected, items: seq<Selected>, previous: Option<Proxies>,
                       proxies: Proxies)
    requires items == front + [item] && Judge(item, previous, proxies) == Keep
    requires JudgeAll(front, previous, proxies) == Plan(front, [], 0)
    ensures JudgeAll(items, previous, proxies) == Plan(items, [], 0)
  {
    assert items[..|items| - 1] == front;
    JudgeAllStep(items, previous, proxies, Keep);
    KeepingOne(front, item, JudgeAll(items, previous, proxies));
  }

  lemma {:induction false} SettledPlanIsIdentity(items: seq<Selected>, previous: Option<Proxies>, proxies: Proxies)
    requires AllKept(items, previous, proxies)
    ensures JudgeAll(items, previous, proxies) == Plan(items, [], 0)
  {
    if items != [] {
      var n := |items| - 1;
      AllKeptPrefix(items, n, previous, proxies);
      SettledPlanIsIdentity(items[..n], previous, proxies);
      KeepingOneMore(items[..n], items[n], items, previous, proxies);
    }
  }

  /**
   Repair converges in one pass: reconciling the plan's own records against the core as its activations
   leave it, with the same previous snapshot, changes, activates and repairs nothing.
   */
  lemma ReconcileConverges(selected: seq<Selected>, previous: Option<Proxies>, proxies: Proxies)
    ensures var plan := Reconcile(selected, previous, proxies);
            Reconcile(plan.selected, previous, Activated(proxies, plan.activations)) == Plan(plan.selected, [], 0)
  {
    var unique := LastOfEach(selected);
    var plan := Reconcile(selected, previous, proxies);
    var proxies' := Activated(proxies, plan.activations);
    LastOfEachIsOnePerGroup(selected);
    ActivationsReachTheirGroups(unique, previous, proxies);
    PlanIsOnePerGroup(unique, previous, proxies);
    OnePerGroupIsKept(plan.selected);
    PlanIsSettled(unique, previous, proxies, proxies');
    SettledPlanIsIdentity(plan.selected, previous, proxies');
  }

  // ---- Confirmation ---------------------------------------------------------------------------

  /** Whether the activation worker fetches a second snapshot before pruning. */
  predicate NeedsConfirmation(selected: seq<Selected>, proxies: Proxies) {
    exists i :: 0 <= i < |selected| && Doubtful(selected[i], proxies)
  }

  predicate Doubtful(item: Selected, proxies: Proxies) {
    && item.name.Some? && item.now.Some?
    && (item.name.value !in proxies || Loaded(proxies[item.name.value]).None?
        || item.now.value !in Loaded(proxies[item.name.value]).value)
  }

  /** The records whose fate an earlier snapshot can decide. */
  predicate Undecided(item: Selected, proxies: Proxies) {
    && item.name.Some? && item.now.Some?
    && (item.name.value !in proxies
        || (Selectable(proxies[item.name.value].kind) && Loaded(proxies[item.name.value]).Some?
            && item.now.value !in Loaded(proxies[item.name.value]).value))
  }

  /** Knowing an earlier snapshot can only add repairs, and adds none to a decided record. */
  lemma PreviousOnlyAddsRepairs(item: Selected, previous: Option<Proxies>, proxies: Proxies)
    ensures RepairsOf(Judge(item, None, proxies)) <= RepairsOf(Judge(item, previous, proxies))
    ensures !Undecided(item, proxies) ==> Judge(item, previous, proxies) == Judge(item, None, proxies)
  {
  }

  /** A snapshot that confirms the record is stale: it lacks the group, or has it without the node. */
  function Refutation(item: Selected, proxies: Proxies): Proxies
    requires item.name.Some? && item.now.Some?
  {
    if item.name.value !in proxies then map[]
    else map[item.name.value := Group(Selector, Some([item.now.value + "x"]), None)]
  }

  lemma RefutationRepairs(item: Selected, proxies: Proxies)
    requires Undecided(item, proxies)
    ensures RepairsOf(Judge(item, None, proxies)) == 0
    ensures RepairsOf(Judge(item, Some(Refutation(item, proxies)), proxies)) == 1
  {
    assert |item.now.value| != |item.now.value + "x"|;
  }

  lemma {:induction false} PreviousAddsUp(items: seq<Selected>, previous: Option<Proxies>, proxies: Proxies)
    ensures JudgeAll(items, None, proxies).repaired <= JudgeAll(items, previous, proxies).repaired
  {
    if items != [] {
      PreviousAddsUp(items[..|items| - 1], previous, proxies);
      PreviousOnlyAddsRepairs(items[|items| - 1], previous, proxies);
    }
  }

  lemma OneRepairMore(items: seq<Selected>, previous: Option<Proxies>, proxies: Proxies, v: Verdict, w: Verdict)
    requires items != []
    requires v == Judge(items[|items| - 1], None, proxies) && w == Judge(items[|items| - 1], previous, proxies)
    ensures var front := items[..|items| - 1];
      && JudgeAll(items, None, proxies).repaired == JudgeAll(front, None, proxies).repaired + RepairsOf(v)
      && JudgeAll(items, previous, proxies).repaired == JudgeAll(front, previous, proxies).repaired + RepairsOf(w)
  {
    JudgeAllStep(items, None, proxies, v);
    JudgeAllStep(items, previous, proxies, w);
  }

  lemma AddsOneLast(items: seq<Selected>, previous: Option<Proxies>, proxies: Proxies, v: Verdict, w: Verdict)
    requires items != [] && RepairsOf(v) < RepairsOf(w)
    requires v == Judge(items[|items| - 1], None, proxies) && w == Judge(items[|items| - 1], previous, proxies)
    ensures JudgeAll(items, None, proxies).repaired < JudgeAll(items, previous, proxies).repaired
  {
    OneRepairMore(items, previous, proxies, v, w);
    PreviousAddsUp(items[..|items| - 1], previous, proxies);
  }

  lemma AddsOneBefore(items: seq<Selected>, previous: Option<Proxies>, proxies: Proxies)
    requires items != []
    requires var front := items[..|items| - 1];
             JudgeAll(front, None, proxies).repaired < JudgeAll(front, previous, proxies).repaired
    ensures JudgeAll(items, None, proxies).repaired < JudgeAll(items, previous, proxies).repaired
  {
    PreviousOnlyAddsRepairs(items[|items| - 1], previous, proxies);
  }

  lemma {:induction false} PreviousAddsOne(items: seq<Selected>, previous: Option<Proxies>, proxies: Proxies, i: nat,
                                           v: Verdict, w: Verdict)
    requires i < |items| && RepairsOf(v) < RepairsOf(w)
    requires v == Judge(items[i], None, proxies) && w == Judge(items[i], previous, proxies)
    ensures JudgeAll(items, None, proxies).repaired < JudgeAll(items, previous, proxies).repaired
  {
    var n := |items| - 1;
    if i < n {
      assert items[..n][i] == items[i];
      PreviousAddsOne(items[..n], previous, proxies, i, v, w);
      AddsOneBefore(items, previous, proxies);
    } else {
      AddsOneLast(items, previous, proxies, v, w);
    }
  }

  lemma {:induction false} PreviousAddsNothing(items: seq<Selected>, previous: Option<Proxies>, proxies: Proxies)
    requires forall item <- items :: !Undecided(item, proxies)
    ensures JudgeAll(items, previous, proxies) == JudgeAll(items, None, proxies)
  {
    if items != [] {
      var n := |items| - 1;
      assert items[n] in items;
      PreviousAddsNothing(items[..n], previous, proxies);
      PreviousOnlyAddsRepairs(items[n], previous, proxies);
    }
  }

  /**
   Exactly when an earlier snapshot can matter: some last record of its group names a node, and the
   group is missing, or is selectable and loaded without that node.
   */
  lemma PreviousMattersIff(selected: seq<Selected>, proxies: Proxies)
    ensures (exists previous :: Reconcile(selected, previous, proxies) != Reconcile(selected, None, proxies)) <==>
            (exists item <- LastOfEach(selected) :: Undecided(item, proxies))
  {
    var unique := LastOfEach(selected);
    if item :| item in unique && Undecided(item, proxies) {
      RefutationRepairs(item, proxies);
      var previous := Some(Refutation(item, proxies));
      var i :| 0 <= i < |unique| && unique[i] == item;
      PreviousAddsOne(unique, previous, proxies, i, Judge(item, None, proxies), Judge(item, previous, proxies));
      assert Reconcile(selected, previous, proxies).repaired != Reconcile(selected, None, proxies).repaired;
    } else {
      forall previous ensures Reconcile(selected, previous, proxies) == Reconcile(selected, None, proxies) {
        PreviousAddsNothing(unique, previous, proxies);
      }
    }
  }

  lemma {:induction false} LastOfEachIsFrom(selected: seq<Selected>)
    ensures forall item <- LastOfEach(selected) :: item in selected
  {
    if selected != [] {
      LastOfEachIsFrom(selected[1..]);
    }
  }

  /** Skipping the second fetch when no confirmation is needed loses nothing. */
  lemma ConfirmationIsSound(selected: seq<Selected>, proxies: Proxies, previous: Option<Proxies>)
    requires !NeedsConfirmation(selected, proxies)
    ensures Reconcile(selected, previous, proxies) == Reconcile(selected, None, proxies)
  {
    LastOfEachIsFrom(selected);
    forall item <- LastOfEach(selected) ensures !Undecided(item, proxies) {
      var i :| 0 <= i < |selected| && selected[i] == item;
      assert !Doubtful(selected[i], proxies);
    }
    PreviousAddsNothing(LastOfEach(selected), previous, proxies);
  }

  lemma {:induction false} KeptIffJudgedKept(items: seq<Selected>, previous: Option<Proxies>, proxies: Proxies, i: nat)
    requires OnePerGroup(items) && i < |items|
    ensures items[i] in JudgeAll(items, previous, proxies).selected <==>
            Judge(items[i], previous, proxies).Keep? || Judge(items[i], previous, proxies).Activate?
  {
    var n := |items| - 1;
    PlanIsOnePerGroup(items[..n], previous, proxies);
    ReplacementDiffers(items[n], previous, proxies);
    if i < n {
      assert items[..n][i] == items[i];
      KeptIffJudgedKept(items[..n], previous, proxies, i);
    } else {
      assert !Names(items[..n], items[n].name.value) by {
        assert forall j | 0 <= j < n :: items[..n][j].name != items[n].name;
      }
    }
  }

  /**
   The evidence on which a choice may be dropped or replaced: both snapshots lack the group; or the group
   is selectable and both snapshots have it loaded without the node; or it is loaded, not selectable, and
   on another of its nodes, or on none of them while lacking this one.
   */
  predicate Refuted(group: string, node: string, previous: Option<Proxies>, proxies: Proxies) {
    if group !in proxies then previous.Some? && group !in previous.value
    else
      var now, all := proxies[group].now, proxies[group].all;
      && HasLoaded(proxies[group])
      && if proxies[group].kind != OtherType then
           && node !in all.value && previous.Some? && group in previous.value
           && HasLoaded(previous.value[group]) && node !in previous.value[group].all.value
         else if now.Some? && now.value in all.value then now.value != node
         else node !in all.value
  }

  predicate HasLoaded(group: Group) {
    group.all.Some? && group.all.value != []
  }

  lemma JudgedKeptUnlessRefuted(item: Selected, previous: Option<Proxies>, proxies: Proxies)
    requires item.name.Some? && item.now.Some?
    ensures Judge(item, previous, proxies).Keep? || Judge(item, previous, proxies).Activate? <==>
            !Refuted(item.name.value, item.now.value, previous, proxies)
  {
  }

  /** A record naming a node, the last for its group, survives unchanged exactly unless it is refuted. */
  lemma DroppedOnlyWhenConfirmed(selected: seq<Selected>, previous: Option<Proxies>, proxies: Proxies, item: Selected)
    requires item in LastOfEach(selected) && item.now.Some?
    ensures item.name.Some?
    ensures item !in Reconcile(selected, previous, proxies).selected <==>
            Refuted(item.name.value, item.now.value, previous, proxies)
  {
    var unique := LastOfEach(selected);
    LastOfEachIsOnePerGroup(selected);
    var i :| 0 <= i < |unique| && unique[i] == item;
    KeptIffJudgedKept(unique, previous, proxies, i);
    JudgedKeptUnlessRefuted(item, previous, proxies);
  }

  // ---- Settling -------------------------------------------------------------------------------

  predicate OnItsNode(item: Selected, proxies: Proxies) {
    item.name.Some? && item.now.Some? ==> item.name.value in proxies && proxies[item.name.value].now == item.now
  }

  /** Recorded groups the core has not brought to the requested node. */
  function UnsettledSelections(selected: seq<Selected>, proxies: Proxies): seq<string> {
    if selected == [] then []
    else (if OnItsNode(selected[0], proxies) then [] else [selected[0].name.value])
         + UnsettledSelections(selected[1..], proxies)
  }

  lemma {:induction false} UnsettledIff(selected: seq<Selected>, proxies: Proxies, name: string)
    ensures name in UnsettledSelections(selected, proxies) <==>
            exists i :: 0 <= i < |selected| && selected[i].name == Some(name) && !OnItsNode(selected[i], proxies)
  {
    if selected != [] {
      UnsettledIff(selected[1..], proxies, name);
      assert forall i | 0 <= i < |selected[1..]| :: selected[1..][i] == selected[i + 1];
      if i :| 0 <= i < |selected| && selected[i].name == Some(name) && !OnItsNode(selected[i], proxies) {
        assert i == 0 || selected[1..][i - 1] == selected[i];
      }
    }
  }

  /** Every activation comes from a record. */
  lemma {:induction false} ActivationsAreOf(items: seq<Selected>, previous: Option<Proxies>, proxies: Proxies,
                                            a: (string, string))
    returns (i: nat)
    requires a in JudgeAll(items, previous, proxies).activations
    ensures i < |items| && items[i] == Selected(Some(a.0), Some(a.1)) && Judge(items[i], previous, proxies).Activate?
  {
    var n := |items| - 1;
    var v := Judge(items[n], previous, proxies);
    JudgeAllStep(items, previous, proxies, v);
    if a in JudgeAll(items[..n], previous, proxies).activations {
      i := ActivationsAreOf(items[..n], previous, proxies, a);
      assert items[..n][i] == items[i];
    } else {
      i := n;
    }
  }

  lemma ActivatedIsOffItsNode(item: Selected, previous: Option<Proxies>, proxies: Proxies)
    requires Judge(item, previous, proxies).Activate?
    ensures !OnItsNode(item, proxies)
  {
  }

  /** Waiting ends soundly: a group to activate is always reported unsettled. */
  lemma ActivationsAreUnsettled(selected: seq<Selected>, previous: Option<Proxies>, proxies: Proxies,
                                a: (string, string))
    requires a in Reconcile(selected, previous, proxies).activations
    ensures a.0 in UnsettledSelections(selected, proxies)
  {
    var unique := LastOfEach(selected);
    var k := ActivationsAreOf(unique, previous, proxies, a);
    ActivatedIsOffItsNode(unique[k], previous, proxies);
    LastOfEachIsFrom(selected);
    assert unique[k] in unique;
    var i :| 0 <= i < |selected| && selected[i] == unique[k];
    UnsettledIff(selected, proxies, a.0);
  }

  /** After a pass whose activations all succeeded, a kept record is unsettled only if the core cannot select it. */
  lemma OnlyUnloadedStayUnsettled(selected: seq<Selected>, previous: Option<Proxies>, proxies: Proxies, item: Selected)
    requires item in Reconcile(selected, previous, proxies).selected && item.name.Some? && item.now.Some?
    ensures var proxies' := Activated(proxies, Reconcile(selected, previous, proxies).activations);
            var name := item.name.value;
            (name in proxies' && Selectable(proxies'[name].kind) && Loaded(proxies'[name]).Some?
             && item.now.value in Loaded(proxies'[name]).value) ==> OnItsNode(item, proxies')
  {
    var unique := LastOfEach(selected);
    var proxies' := Activated(proxies, Reconcile(selected, previous, proxies).activations);
    LastOfEachIsOnePerGroup(selected);
    ActivationsReachTheirGroups(unique, previous, proxies);
    PlanIsSettled(unique, previous, proxies, proxies');
    var kept := JudgeAll(unique, previous, proxies).selected;
    var i :| 0 <= i < |kept| && kept[i] == item;
    assert Judge(kept[i], previous, proxies') == Keep;
  }
}
