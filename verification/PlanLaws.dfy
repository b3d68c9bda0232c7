/** What a plan makes of each group: the node recorded for it, whether it is activated, and the count of repairs. */
module PlanLaws {
  import opened Basics
  import opened Selection
  import opened SelectionLaws

  // ---- The last records -----------------------------------------------------------------------

  lemma {:induction false} LastOfEachHasChoice(selected: seq<Selected>, group: string)
    requires Choice(selected, group).Some?
    ensures Selected(Some(group), Choice(selected, group).value) in LastOfEach(selected)
  {
    var i := LastRecord(selected, group);
    LastOfEachAt(selected, i);
  }

  lemma {:induction false} LastOfEachAt(selected: seq<Selected>, i: nat)
    requires i < |selected| && selected[i].name.Some?
    requires forall k | i < k < |selected| :: selected[k].name != selected[i].name
    ensures selected[i] in LastOfEach(selected)
  {
    if i == 0 {
      assert forall k | 0 <= k < |selected[1..]| :: selected[1..][k] == selected[k + 1];
    } else {
      assert forall k | 0 <= k < |selected[1..]| :: selected[1..][k] == selected[k + 1];
      LastOfEachAt(selected[1..], i - 1);
    }
  }

  lemma {:induction false} ChoiceAppend(a: seq<Selected>, b: seq<Selected>, group: string)
    ensures Choice(a + b, group) == if Choice(b, group).Some? then Choice(b, group) else Choice(a, group)
  {
    if b == [] {
      assert a + b == a;
    } else {
      assert (a + b)[..|a + b| - 1] == a + b[..|b| - 1];
      ChoiceAppend(a, b[..|b| - 1], group);
    }
  }

  lemma {:induction false} NoRecordNoChoice(selected: seq<Selected>, group: string)
    ensures Choice(selected, group).None? <==> !Names(selected, group)
  {
    if selected != [] {
      var n := |selected| - 1;
      NoRecordNoChoice(selected[..n], group);
      NamesOfPrefix(selected, n, group);
      if Names(selected, group) && selected[n].name != Some(group) {
        var i :| 0 <= i < |selected| && selected[i].name == Some(group);
        assert selected[..n][i].name == Some(group);
      }
    }
  }

  /** Keeping the last record of each group keeps every choice. */
  lemma LastOfEachKeepsChoice(selected: seq<Selected>, group: string)
    ensures Choice(LastOfEach(selected), group) == Choice(selected, group)
  {
    var unique := LastOfEach(selected);
    LastOfEachIsOnePerGroup(selected);
    NoRecordNoChoice(selected, group);
    NoRecordNoChoice(unique, group);
    if Choice(selected, group).Some? {
      LastOfEachHasChoice(selected, group);
      var i :| 0 <= i < |unique| && unique[i] == Selected(Some(group), Choice(selected, group).value);
      ChoiceIff(unique, group, i);
    }
  }

  // ---- The node recorded for a group ----------------------------------------------------------

  /** The core has the group on one of the nodes it has loaded. */
  predicate StandsOnItsNode(group: Group) {
    group.now.Some? && group.all.Some? && group.now.value in group.all.value
  }

  /**
   What becomes of a group's choice: a record without a node goes; a node stays unless it is refuted; a refuted one
   gives way to the node the group stands on, if it stands on one of its own, and otherwise the record goes.
   */
  function Repaired(choice: Option<Option<string>>, group: string, previous: Option<Proxies>, proxies: Proxies)
    : Option<Option<string>>
  {
    if choice.None? || choice.value.None? then None
    else if !Refuted(group, choice.value.value, previous, proxies) then choice
    else if group in proxies && StandsOnItsNode(proxies[group]) then Some(proxies[group].now)
    else None
  }

  /** One record. */
  lemma JudgedChoice(item: Selected, previous: Option<Proxies>, proxies: Proxies, group: string)
    ensures Choice(KeptBy(item, Judge(item, previous, proxies)), group)
         == if item.name == Some(group) then Repaired(Some(item.now), group, previous, proxies) else None
  {
    var kept := KeptBy(item, Judge(item, previous, proxies));
    assert kept != [] ==> kept[..|kept| - 1] == [];
  }

  lemma JudgedStep(items: seq<Selected>, previous: Option<Proxies>, proxies: Proxies, group: string,
                   v: Verdict, kept: Option<Option<string>>)
    requires items != [] && Judge(items[|items| - 1], previous, proxies) == v
    requires Choice(KeptBy(items[|items| - 1], v), group) == kept
    ensures Choice(JudgeAll(items, previous, proxies).selected, group)
         == if kept.Some? then kept else Choice(JudgeAll(items[..|items| - 1], previous, proxies).selected, group)
  {
    JudgeAllStep(items, previous, proxies, v);
    ChoiceAppend(JudgeAll(items[..|items| - 1], previous, proxies).selected, KeptBy(items[|items| - 1], v), group);
  }

  lemma ChoiceStep(items: seq<Selected>, group: string)
    requires OnePerGroup(items) && items != []
    ensures var front, last := items[..|items| - 1], items[|items| - 1];
      && OnePerGroup(front)
      && Choice(items, group) == (if last.name == Some(group) then Some(last.now) else Choice(front, group))
      && (last.name == Some(group) ==> Choice(front, group).None?)
  {
    NoRecordNoChoice(items[..|items| - 1], group);
  }

  lemma {:induction false} JudgedChoices(items: seq<Selected>, previous: Option<Proxies>, proxies: Proxies,
                                         group: string)
    requires OnePerGroup(items)
    ensures Choice(JudgeAll(items, previous, proxies).selected, group)
         == Repaired(Choice(items, group), group, previous, proxies)
  {
    if items != [] {
      var last, v := items[|items| - 1], Judge(items[|items| - 1], previous, proxies);
      ChoiceStep(items, group);
      JudgedChoices(items[..|items| - 1], previous, proxies, group);
      JudgedChoice(last, previous, proxies, group);
      JudgedStep(items, previous, proxies, group, v, Choice(KeptBy(last, v), group));
    }
  }

  /** The plan's record of every group, in terms of the saved list and the two snapshots. */
  lemma PlanChoice(selected: seq<Selected>, previous: Option<Proxies>, proxies: Proxies, group: string)
    ensures Choice(Reconcile(selected, previous, proxies).selected, group)
         == Repaired(Choice(selected, group), group, previous, proxies)
  {
    LastOfEachIsOnePerGroup(selected);
    JudgedChoices(LastOfEach(selected), previous, proxies, group);
    LastOfEachKeepsChoice(selected, group);
  }

  // ---- The activations ------------------------------------------------------------------------

  /** The core can bring the group to the node, and it is not there. */
  predicate CanBeBrought(group: string, node: string, proxies: Proxies) {
    && group in proxies && Selectable(proxies[group].kind)
    && proxies[group].all.Some? && node in proxies[group].all.value && proxies[group].now != Some(node)
  }

  lemma JudgedActivation(item: Selected, previous: Option<Proxies>, proxies: Proxies, group: string, node: string)
    ensures (group, node) in ActivatedBy(item, Judge(item, previous, proxies)) <==>
            item == Selected(Some(group), Some(node)) && CanBeBrought(group, node, proxies)
  {
  }

  lemma {:induction false} JudgedActivations(items: seq<Selected>, previous: Option<Proxies>, proxies: Proxies,
                                             group: string, node: string)
    ensures (group, node) in JudgeAll(items, previous, proxies).activations <==>
            Selected(Some(group), Some(node)) in items && CanBeBrought(group, node, proxies)
  {
    if items != [] {
      var n := |items| - 1;
      JudgedActivations(items[..n], previous, proxies, group, node);
      JudgedActivation(items[n], previous, proxies, group, node);
      JudgeAllStep(items, previous, proxies, Judge(items[n], previous, proxies));
      assert items == items[..n] + [items[n]];
    }
  }

  lemma UniqueChoice(items: seq<Selected>, group: string, now: Option<string>)
    requires OnePerGroup(items)
    ensures Selected(Some(group), now) in items <==> Choice(items, group) == Some(now)
  {
    if Choice(items, group) == Some(now) {
      var i := LastRecord(items, group);
      assert items[i] == Selected(Some(group), now);
    }
    if Selected(Some(group), now) in items {
      var i :| 0 <= i < |items| && items[i] == Selected(Some(group), now);
      ChoiceIff(items, group, i);
    }
  }

  /** A group is sent to the core exactly if its choice is a node it has, can be told to take, and is not on. */
  lemma ActivatedIff(selected: seq<Selected>, previous: Option<Proxies>, proxies: Proxies, group: string, node: string)
    ensures (group, node) in Reconcile(selected, previous, proxies).activations <==>
            Choice(selected, group) == Some(Some(node)) && CanBeBrought(group, node, proxies)
  {
    LastOfEachIsOnePerGroup(selected);
    JudgedActivations(LastOfEach(selected), previous, proxies, group, node);
    UniqueChoice(LastOfEach(selected), group, Some(node));
    LastOfEachKeepsChoice(selected, group);
  }

  // ---- The count ------------------------------------------------------------------------------

  predicate Stays(item: Selected, previous: Option<Proxies>, proxies: Proxies) {
    item.name.Some? && item.now.Some? && !Refuted(item.name.value, item.now.value, previous, proxies)
  }

  function CountStaying(items: seq<Selected>, previous: Option<Proxies>, proxies: Proxies): nat {
    if items == [] then 0
    else CountStaying(items[..|items| - 1], previous, proxies)
         + if Stays(items[|items| - 1], previous, proxies) then 1 else 0
  }

  lemma {:induction false} JudgedCount(items: seq<Selected>, previous: Option<Proxies>, proxies: Proxies)
    ensures JudgeAll(items, previous, proxies).repaired + CountStaying(items, previous, proxies) == |items|
  {
    if items != [] {
      JudgedCount(items[..|items| - 1], previous, proxies);
    }
  }

  /** The repairs are the records that are not the last of their group, name no node, or are refuted. */
  lemma RepairsAreTheRest(selected: seq<Selected>, previous: Option<Proxies>, proxies: Proxies)
    ensures Reconcile(selected, previous, proxies).repaired
         == |selected| - CountStaying(LastOfEach(selected), previous, proxies)
  {
    JudgedCount(LastOfEach(selected), previous, proxies);
  }

  // ---- Confirmation and settling, in the core's own terms -------------------------------------

  /** No second snapshot is needed exactly if every record with a node finds it among its group's nodes. */
  lemma NeedsNoConfirmationIff(selected: seq<Selected>, proxies: Proxies)
    ensures !NeedsConfirmation(selected, proxies) <==>
            forall item <- selected | item.name.Some? && item.now.Some? ::
              item.name.value in proxies && proxies[item.name.value].all.Some?
              && item.now.value in proxies[item.name.value].all.value
  {
    if NeedsConfirmation(selected, proxies) {
      var i :| 0 <= i < |selected| && Doubtful(selected[i], proxies);
      assert selected[i] in selected;
    } else {
      forall item <- selected ensures !Doubtful(item, proxies) {
        var i :| 0 <= i < |selected| && selected[i] == item;
      }
    }
  }

  /** A group is reported exactly if a record wants it on a node and the core lacks it or has it elsewhere. */
  lemma UnsettledExactly(selected: seq<Selected>, proxies: Proxies, name: string)
    ensures name in UnsettledSelections(selected, proxies) <==>
            exists item <- selected :: item.name == Some(name) && item.now.Some?
              && (name !in proxies || proxies[name].now != item.now)
  {
    UnsettledIff(selected, proxies, name);
    if i :| 0 <= i < |selected| && selected[i].name == Some(name) && !OnItsNode(selected[i], proxies) {
      assert selected[i] in selected;
    }
    if item :| item in selected && item.name == Some(name) && item.now.Some?
               && (name !in proxies || proxies[name].now != item.now) {
      var i :| 0 <= i < |selected| && selected[i] == item;
      assert !OnItsNode(selected[i], proxies);
    }
  }
}
