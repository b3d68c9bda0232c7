/**
 Reconciling the node selections saved in a profile with what the running core reports: which records
 to keep, which to repair or drop, and which selections to send to the core.
 */
module Selection {
  import opened Basics

  /** One saved record: the node selected for a group. Either part may be missing in the file. */
  datatype Selected = Selected(name: Option<string>, now: Option<string>)

  datatype ProxyType = Selector | URLTest | Fallback | LoadBalance | OtherType

  /** What the core reports about one group. `all` is absent or empty until a provider has loaded. */
  datatype Group = Group(kind: ProxyType, all: Option<seq<string>>, now: Option<string>)

  type Proxies = map<string, Group>

  datatype Plan = Plan(selected: seq<Selected>, activations: seq<(string, string)>, repaired: nat)

  predicate Selectable(kind: ProxyType) {
    kind != OtherType
  }

  /** The group's nodes, when it has loaded any. */
  function Loaded(group: Group): Option<seq<string>> {
    if group.all.Some? && group.all.value != [] then group.all else None
  }

  // ---- One record -----------------------------------------------------------------------------

  /** What is done with one record: kept (as it is or repaired) or dropped, perhaps activated. */
  datatype Verdict = Keep | Activate | Replace(node: string) | Drop

  /** Both snapshots agree the group, loaded in both, lacks the node. */
  predicate MissingConfirmed(previous: Option<Proxies>, group: string, node: string) {
    && previous.Some? && group in previous.value
    && Loaded(previous.value[group]).Some? && node !in Loaded(previous.value[group]).value
  }

  function Judge(item: Selected, previous: Option<Proxies>, proxies: Proxies): Verdict {
    if item.name.None? || item.now.None? then Drop else
    var (name, node) := (item.name.value, item.now.value);
    if name !in proxies then
      if previous.Some? && name !in previous.value then Drop else Keep
    else
    var group := proxies[name];
    if Loaded(group).None? then Keep else
    var nodes := Loaded(group).value;
    var current := if group.now.Some? && group.now.value in nodes then group.now else None;
    if !Selectable(group.kind) then
      if current.Some? then (if current.value == node then Keep else Replace(current.value))
      else if node in nodes then Keep else Drop
    else if node in nodes then (if group.now == Some(node) then Keep else Activate)
    else if !MissingConfirmed(previous, name, node) then Keep
    else if current.Some? then Replace(current.value) else Drop
  }

  // ---- The whole list -------------------------------------------------------------------------

  predicate Names(selected: seq<Selected>, name: string) {
    exists i :: 0 <= i < |selected| && selected[i].name == Some(name)
  }

  /** The last record of each named group, in order. */
  function LastOfEach(selected: seq<Selected>): seq<Selected> {
    if selected == [] then []
    else (if selected[0].name.Some? && !Names(selected[1..], selected[0].name.value) then [selected[0]] else [])
         + LastOfEach(selected[1..])
  }

  function KeptBy(item: Selected, v: Verdict): seq<Selected> {
    match v
    case Keep => [item]
    case Activate => [item]
    case Replace(node) => [item.(now := Some(node))]
    case Drop => []
  }

  function ActivatedBy(item: Selected, v: Verdict): seq<(string, string)> {
    if v.Activate? && item.name.Some? && item.now.Some? then [(item.name.value, item.now.value)] else []
  }

  function RepairsOf(v: Verdict): nat {
    if v.Replace? || v.Drop? then 1 else 0
  }

  function JudgeAll(items: seq<Selected>, previous: Option<Proxies>, proxies: Proxies): Plan {
    if items == [] then Plan([], [], 0)
    else
      var before := JudgeAll(items[..|items| - 1], previous, proxies);
      var item := items[|items| - 1];
      var v := Judge(item, previous, proxies);
      Plan(before.selected + KeptBy(item, v), before.activations + ActivatedBy(item, v), before.repaired + RepairsOf(v))
  }

  function Reconcile(selected: seq<Selected>, previous: Option<Proxies>, proxies: Proxies): Plan {
    var unique := LastOfEach(selected);
    UniqueIsShorter(selected);
    var plan := JudgeAll(unique, previous, proxies);
    plan.(repaired := plan.repaired + (|selected| - |unique|))
  }

  lemma {:induction false} UniqueIsShorter(selected: seq<Selected>)
    ensures |LastOfEach(selected)| <= |selected|
    ensures |LastOfEach(selected)| == |selected| ==> LastOfEach(selected) == selected
  {
    if selected != [] {
      UniqueIsShorter(selected[1..]);
    }
  }

  // ---- The loops ------------------------------------------------------------------------------

  /** Walks backwards collecting first-seen names, then reverses. */
  method UniqueSelected(selected: seq<Selected>) returns (unique: seq<Selected>)
    ensures unique == LastOfEach(selected)
  {
    var seen: set<string> := {};
    var collected: seq<Selected> := [];
    var i := |selected|;
    while 0 < i
      invariant 0 <= i <= |selected|
      invariant forall name :: name in seen <==> Names(selected[i..], name)
      invariant Reversed(collected) == LastOfEach(selected[i..])
    {
      i := i - 1;
      assert selected[i..][1..] == selected[i + 1..];
      var item := selected[i];
      assert forall name :: Names(selected[i..], name) <==>
        item.name == Some(name) || Names(selected[i + 1..], name) by { NamesOfTail(selected[i..]); }
      if item.name.Some? && item.name.value !in seen {
        seen := seen + {item.name.value};
        collected := collected + [item];
      }
    }
    unique := Reversed(collected);
  }

  lemma NamesOfTail(s: seq<Selected>)
    requires s != []
    ensures forall name :: Names(s, name) <==> s[0].name == Some(name) || Names(s[1..], name)
  {
    forall name ensures Names(s, name) <==> s[0].name == Some(name) || Names(s[1..], name) {
      if Names(s, name) {
        var i :| 0 <= i < |s| && s[i].name == Some(name);
        assert i == 0 || s[1..][i - 1].name == Some(name);
      }
      if Names(s[1..], name) {
        var i :| 0 <= i < |s[1..]| && s[1..][i].name == Some(name);
        assert s[i + 1].name == Some(name);
      }
    }
  }

  lemma JudgeNext(items: seq<Selected>, i: nat, previous: Option<Proxies>, proxies: Proxies)
    requires i < |items|
    ensures var before, v := JudgeAll(items[..i], previous, proxies), Judge(items[i], previous, proxies);
            JudgeAll(items[..i + 1], previous, proxies) ==
            Plan(before.selected + KeptBy(items[i], v), before.activations + ActivatedBy(items[i], v),
                 before.repaired + RepairsOf(v))
  {
    assert items[..i + 1][..i] == items[..i];
  }

  /** The body of the loop: what one record adds to the plan. */
  method ReconcileOne(item: Selected, previous: Option<Proxies>, proxies: Proxies)
    returns (kept: seq<Selected>, activations: seq<(string, string)>, repaired: nat)
    ensures var v := Judge(item, previous, proxies);
            kept == KeptBy(item, v) && activations == ActivatedBy(item, v) && repaired == RepairsOf(v)
  {
    kept, activations, repaired := [], [], 0;
    if item.name.None? || item.now.None? {
      return [], [], 1;
    }
    var name, node := item.name.value, item.now.value;
    if name !in proxies {
      if previous.Some? && name !in previous.value {
        return [], [], 1;
      }
      return [item], [], 0;
    }
    var group := proxies[name];
    if group.all.None? || group.all.value == [] {
      return [item], [], 0;
    }
    var nodes := group.all.value;
    if group.kind == OtherType {
      var preferred := None;
      if group.now.Some? && group.now.value in nodes {
        preferred := group.now;
      } else if node in nodes {
        preferred := Some(node);
      }
      if preferred.None? {
        return [], [], 1;
      }
      if preferred.value != node {
        repaired := 1;
      }
      kept := [Selected(Some(name), preferred)];
      return;
    }
    if node in nodes {
      if group.now != Some(node) {
        activations := [(name, node)];
      }
      return [item], activations, 0;
    }
    var confirmed := false;
    if previous.Some? && name in previous.value {
      var earlier := previous.value[name].all;
      confirmed := earlier.Some? && earlier.value != [] && node !in earlier.value;
    }
    if !confirmed {
      return [item], [], 0;
    }
    if group.now.Some? && group.now.value in nodes {
      kept := [Selected(Some(name), group.now)];
    }
    repaired := 1;
  }

  method ReconcileSelectedNodes(selected: seq<Selected>, previous: Option<Proxies>, proxies: Proxies)
    returns (plan: Plan)
    ensures plan == Reconcile(selected, previous, proxies)
  {
    var unique := UniqueSelected(selected);
    UniqueIsShorter(selected);
    plan := Plan([], [], |selected| - |unique|);
    for i := 0 to |unique|
      invariant plan == JudgeAll(unique[..i], previous, proxies).(repaired := plan.repaired)
      invariant plan.repaired == |selected| - |unique| + JudgeAll(unique[..i], previous, proxies).repaired
    {
      JudgeNext(unique, i, previous, proxies);
      var kept, activations, repaired := ReconcileOne(unique[i], previous, proxies);
      plan := Plan(plan.selected + kept, plan.activations + activations, plan.repaired + repaired);
    }
    assert unique[..|unique|] == unique;
  }
}
