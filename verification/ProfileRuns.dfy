/**
 Runs in which the updates of the profiles layer race: selections recorded, forgotten and repaired, profiles
 appended, moved and deleted, and a profile switch finished or taken back.
 */
module ProfileRuns {
  import opened Basics
  import opened Selection
  import opened SelectionLaws
  import opened PlanLaws
  import opened ProfileList
  import opened ProfileLaws
  import opened ProfileStore
  import opened DraftStore
  import opened DraftProtocol
  import opened DraftRuns
  import opened DraftLineage

  // ---- Repairs --------------------------------------------------------------------------------

  /**
   In every interleaving, a repair writes only while its profile is current and the committed list is
   the one its plan was computed from; then it writes the plan's list and nothing else. So any newer
   choice, recorded or forgotten since, that changed the list is never undone.
   */
  lemma RepairNeverUndoesNewerChoice(trace: seq<State<Profiles>>, acts: seq<Action<Profiles>>, i: nat,
      uid: string, original: seq<Selected>, repaired: seq<Selected>, current: bool, saved: bool)
    requires IsRun(trace, acts) && i < |acts| && acts[i].Run? && acts[i].t < |trace[i].tasks|
    requires trace[i].tasks[acts[i].t].f == PersistUpdate(uid, original, repaired, current, saved)
    ensures Inv(trace[i]) && Inv(trace[i + 1])
    ensures var p, p' := trace[i].store.Committed(), trace[i + 1].store.Committed();
            p' != p ==> && current && p.current == Some(uid) && Saved(p) == Some(original)
                        && Saved(p') == Some(repaired) && OnlySelectionsDiffer(p, p')
  {
    RunKeepsInv(trace, acts, i);
    StepRefines(trace[i], acts[i]);
    var p, p' := trace[i].store.Committed(), trace[i + 1].store.Committed();
    if p' != p {
      WithSavedIsSaved(p, NonEmpty(repaired));
    }
  }

  /** The other half: whenever a repair's step writes and the repair still applies, the repaired list is committed. */
  lemma RepairWritesItsPlan(trace: seq<State<Profiles>>, acts: seq<Action<Profiles>>, i: nat,
      uid: string, original: seq<Selected>, repaired: seq<Selected>, current: bool, saved: bool)
    requires IsRun(trace, acts) && i < |acts| && acts[i].Run? && Writes(trace[i], acts[i].t)
    requires trace[i].tasks[acts[i].t].f == PersistUpdate(uid, original, repaired, current, saved)
    ensures Inv(trace[i]) && Inv(trace[i + 1])
    ensures var p, p' := trace[i].store.Committed(), trace[i + 1].store.Committed();
            if Applies(p, uid, original, current) then
              saved && Saved(p') == Some(repaired) && OnlySelectionsDiffer(p, p')
            else p' == p
  {
    RunKeepsInv(trace, acts, i);
    StepRefines(trace[i], acts[i]);
    PersistedIff(trace[i].store.Committed(), uid, original, repaired, current, saved);
  }

  /**
   ... and the closure succeeds, so that its step is such a write, unless its profile is current and missing or the
   save fails.
   */
  lemma RepairSucceedsIff(p: Profiles, uid: string, original: seq<Selected>, repaired: seq<Selected>, current: bool,
                          saved: bool)
    ensures PersistUpdate(uid, original, repaired, current, saved)(p).Some? <==>
            !current || p.current != Some(uid) || (Has(p.List(), uid) && (Saved(p) != Some(original) || saved))
  {
    PersistedIff(p, uid, original, repaired, current, saved);
  }

  /** A repair of its own plan leaves every choice that the snapshots do not refute. */
  lemma RepairKeepsChoice(p: Profiles, uid: string, original: seq<Selected>, previous: Option<Proxies>,
                          proxies: Proxies, current: bool, group: string, node: string)
    requires Saved(p).Some? && Choice(Saved(p).value, group) == Some(Some(node))
    requires !Refuted(group, node, previous, proxies)
    ensures var r := Persisted(p, uid, original, Reconcile(original, previous, proxies).selected, current, true);
            r.Some? ==> Saved(r.value.0).Some? && Choice(Saved(r.value.0).value, group) == Some(Some(node))
  {
    var plan := Reconcile(original, previous, proxies);
    if current && p.current == Some(uid) && Saved(p).value == original {
      WithSavedIsSaved(p, NonEmpty(plan.selected));
      LastOfEachHasChoice(original, group);
      var item := Selected(Some(group), Some(node));
      DroppedOnlyWhenConfirmed(original, previous, proxies, item);
      LastOfEachIsOnePerGroup(original);
      PlanIsOnePerGroup(LastOfEach(original), previous, proxies);
      var k :| 0 <= k < |plan.selected| && plan.selected[k] == item;
      ChoiceIff(plan.selected, group, k);
    }
  }

  /**
   In every interleaving, if a repair step changes what is saved for a group that had a choice, then the core's
   second snapshot lacks the group or the node and the first snapshot agrees, or the group is not selectable and is
   on another node or lacks this one.
   */
  lemma RepairKeepsLiveChoices(trace: seq<State<Profiles>>, acts: seq<Action<Profiles>>, i: nat, uid: string,
      original: seq<Selected>, previous: Option<Proxies>, proxies: Proxies, current: bool, saved: bool,
      group: string, node: string)
    requires IsRun(trace, acts) && i < |acts| && acts[i].Run? && acts[i].t < |trace[i].tasks|
    requires trace[i].tasks[acts[i].t].f ==
             PersistUpdate(uid, original, Reconcile(original, previous, proxies).selected, current, saved)
    ensures Inv(trace[i]) && Inv(trace[i + 1])
    ensures var p, p' := trace[i].store.Committed(), trace[i + 1].store.Committed();
            (Saved(p).Some? && Choice(Saved(p).value, group) == Some(Some(node))
             && !Refuted(group, node, previous, proxies)) ==>
            Saved(p').Some? && Choice(Saved(p').value, group) == Some(Some(node))
  {
    RunKeepsInv(trace, acts, i);
    StepRefines(trace[i], acts[i]);
    var p := trace[i].store.Committed();
    if Saved(p).Some? && Choice(Saved(p).value, group) == Some(Some(node)) && !Refuted(group, node, previous, proxies) {
      RepairKeepsChoice(p, uid, original, previous, proxies, current, group, node);
    }
  }

  // ---- How long a choice lasts ----------------------------------------------------------------

  /** The updates of the profiles layer: every closure the program hands to its asynchronous update. */
  datatype StoreUpdate =
    | Record(group: string, node: string, saved: bool)
    | Forget(group: string, saved: bool)
    | Repair(uid: string, original: seq<Selected>, previous: Option<Proxies>, proxies: Proxies,
             current: bool, saved: bool)
    | Switch(target: string)
    | AppendProfile(item: Item, written: bool)
    | MoveProfile(active: string, over: string, saved: bool)
    | DeleteProfile(uid: string, verdict: Option<bool>)
    | PatchProfile(uid: string, patch: Item, saved: bool)
    | RefreshProfile(uid: string, item: Item, written: bool, saved: bool)
    | SaveFile(saved: bool)
    | RaiseIntervals(saved: bool)

  function PatchUpdate(uid: string, patch: Item, saved: bool): Profiles -> Option<Profiles> {
    (p: Profiles) =>
      if PatchFailure(p, uid, patch, saved).Some? then None else Some(Rewritten(p, uid, PatchOf(patch)))
  }

  function RefreshUpdate(uid: string, item: Item, written: bool, saved: bool): Profiles -> Option<Profiles> {
    (p: Profiles) =>
      if UpdateFailure(p, uid, item, written, saved).Some? then None else Some(Rewritten(p, uid, RefreshOf(uid, item)))
  }

  function SaveUpdate(saved: bool): Profiles -> Option<Profiles> {
    p => if saved then Some(p) else None
  }

  /** Update intervals are no part of the model, so raising them shows no change; it needs a loaded list. */
  function RaiseUpdate(saved: bool): Profiles -> Option<Profiles> {
    (p: Profiles) => if p.items.Some? && saved then Some(p) else None
  }

  function MoveUpdate(active: string, over: string, saved: bool): Profiles -> Option<Profiles> {
    (p: Profiles) => if Moves(p.List(), active, over) && !saved then None
                    else Some(Perform(p, Op.Reorder(active, over)))
  }

  /** `verdict` is the core's on the configuration without the profile, or none where an error ends the deletion. */
  function DeleteUpdate(uid: string, verdict: Option<bool>): Profiles -> Option<Profiles> {
    p => if Deleted(p, uid).Err? || verdict.None? then None
         else Some(if verdict.value then Deleted(p, uid).value.0 else p)
  }

  function AppendUpdate(item: Item, written: bool): Profiles -> Option<Profiles> {
    p => if Appended(p, item, written).Ok? then Some(Appended(p, item, written).value) else None
  }

  function Closure(u: StoreUpdate): Profiles -> Option<Profiles> {
    match u
    case Record(group, node, saved) => RecordUpdate(group, node, saved)
    case Forget(group, saved) => ForgetUpdate(group, saved)
    case Repair(uid, original, previous, proxies, current, saved) =>
      PersistUpdate(uid, original, Reconcile(original, previous, proxies).selected, current, saved)
    case Switch(target) => SwitchUpdate(target)
    case AppendProfile(item, written) => AppendUpdate(item, written)
    case MoveProfile(active, over, saved) => MoveUpdate(active, over, saved)
    case DeleteProfile(uid, verdict) => DeleteUpdate(uid, verdict)
    case PatchProfile(uid, patch, saved) => PatchUpdate(uid, patch, saved)
    case RefreshProfile(uid, item, written, saved) => RefreshUpdate(uid, item, written, saved)
    case SaveFile(saved) => SaveUpdate(saved)
    case RaiseIntervals(saved) => RaiseUpdate(saved)
  }

  /** What the updates of the list write, if they succeed, and when they do. */
  lemma ListUpdatesAre(p: Profiles, u: StoreUpdate)
    ensures var r := Closure(u)(p);
      match u
      case AppendProfile(item, written) =>
        (r.Some? <==> Appended(p, item, written).Ok?) && (r.Some? ==> r.value == Appended(p, item, written).value)
      case MoveProfile(active, over, saved) =>
        (r.Some? <==> saved || !Moves(p.List(), active, over))
        && (r.Some? ==> r.value.current == p.current && r.value.List() == Reordered(p.List(), active, over))
      case DeleteProfile(uid, verdict) =>
        (r.Some? <==> Has(p.List(), uid) && verdict.Some?)
        && (r.Some? && verdict == Some(true) ==> r.value == Deleted(p, uid).value.0)
        && (r.Some? && verdict == Some(false) ==> r.value == p)
      case PatchProfile(uid, patch, saved) =>
        (r.Some? <==> PatchFailure(p, uid, patch, saved).None?)
        && (r.Some? ==> r.value == Rewritten(p, uid, PatchOf(patch)))
      case RefreshProfile(uid, item, written, saved) =>
        (r.Some? <==> UpdateFailure(p, uid, item, written, saved).None?)
        && (r.Some? ==> r.value == Rewritten(p, uid, RefreshOf(uid, item)))
      case SaveFile(saved) => r == if saved then Some(p) else None
      case _ => true
  {
  }

  /** What a restore would find for the group in the current profile: no record, or the last record's node. */
  ghost predicate Holds(p: Profiles, group: string, choice: Option<Option<string>>) {
    Saved(p).Some? && Choice(Saved(p).value, group) == choice
  }

  /**
   The update has no business with the group's choice: it records or forgets another group (or what is there
   anyway), repairs on evidence that does not refute the node, patches no other choice for the group into the current
   profile, or leaves the current profile current and in place.
   */
  ghost predicate LeavesChoice(p: Profiles, u: StoreUpdate, group: string, choice: Option<Option<string>>) {
    match u
    case Record(g, node, _) => g != group || choice == Some(Some(node))
    case Forget(g, _) => g != group || choice == None
    case Repair(_, _, previous, proxies, _, _) =>
      choice.Some? ==> choice.value.Some? && !Refuted(group, choice.value.value, previous, proxies)
    case Switch(target) => p.current == Some(target) || !Has(p.List(), target)
    case AppendProfile(_, _) => true
    case MoveProfile(_, _, _) => UidsDistinct(p.List())
    case DeleteProfile(uid, _) =>
      UidsDistinct(p.List()) && (Has(p.List(), uid) ==> p.current !in Targets(p.List(), uid))
    case PatchProfile(uid, patch, _) =>
      p.current != Some(uid) || patch.selected.None? || Choice(patch.selected.value, group) == choice
    case RefreshProfile(_, _, _, _) => true
    case SaveFile(_) => true
    case RaiseIntervals(_) => true
  }

  lemma {:induction false} OtherRecordKeepsChoice(selected: seq<Selected>, g: string, node: string, group: string)
    requires g != group
    ensures Choice(RecordIn(selected, g, node), group) == Choice(selected, group)
  {
    var i := FirstIndex(selected, g);
    if i.None? {
      assert RecordIn(selected, g, node)[..|selected|] == selected;
    } else {
      RewritingKeepsChoice(selected, i.value, g, node, group);
    }
  }

  lemma {:induction false} RewritingKeepsChoice(selected: seq<Selected>, i: nat, g: string, node: string, group: string)
    requires g != group && i < |selected| && selected[i].name == Some(g)
    ensures Choice(selected[i := Selected(Some(g), Some(node))], group) == Choice(selected, group)
  {
    var n, after := |selected| - 1, selected[i := Selected(Some(g), Some(node))];
    if i < n {
      assert after[..n] == selected[..n][i := Selected(Some(g), Some(node))];
      RewritingKeepsChoice(selected[..n], i, g, node, group);
    } else {
      assert after[..n] == selected[..n];
    }
  }

  lemma SameRecordKeepsChoice(selected: seq<Selected>, group: string, node: string)
    requires Choice(selected, group) == Some(Some(node))
    ensures Choice(RecordIn(selected, group, node), group) == Some(Some(node))
  {
    RecordTakesEffectIff(selected, group, node);
  }

  lemma {:induction false} ForgetKeepsOthers(selected: seq<Selected>, g: string, group: string)
    ensures Choice(ForgetIn(selected, g), group) == if g == group then None else Choice(selected, group)
  {
    if selected != [] {
      var front, last := selected[..|selected| - 1], selected[|selected| - 1];
      assert selected == front + [last];
      ForgetAppend(front, [last], g);
      ForgetKeepsOthers(front, g, group);
      assert [last][1..] == [];
      var kept := ForgetIn(front, g);
      assert (kept + [last])[..|kept|] == kept;
      assert kept + [] == kept;
    }
  }

  lemma PlanNamesOnlyGroupsOf(selected: seq<Selected>, previous: Option<Proxies>, proxies: Proxies,
                              group: string, i: nat)
    requires i < |Reconcile(selected, previous, proxies).selected|
    requires Reconcile(selected, previous, proxies).selected[i].name == Some(group)
    ensures FirstIndex(selected, group).Some?
  {
    var plan := Reconcile(selected, previous, proxies).selected;
    LastOfEachIsOnePerGroup(selected);
    PlanIsOnePerGroup(LastOfEach(selected), previous, proxies);
    assert plan[i] in plan;
  }

  /** A plan for records without the group has none for it either. */
  lemma PlanAddsNoGroup(selected: seq<Selected>, previous: Option<Proxies>, proxies: Proxies, group: string)
    requires Choice(selected, group).None?
    ensures Choice(Reconcile(selected, previous, proxies).selected, group).None?
  {
    var plan := Reconcile(selected, previous, proxies).selected;
    NoChoiceIff(selected, group);
    NoChoiceIff(plan, group);
    var i := FirstIndex(plan, group);
    if i.Some? {
      PlanNamesOnlyGroupsOf(selected, previous, proxies, group, i.value);
    }
  }

  lemma RepairLeavesChoice(p: Profiles, uid: string, original: seq<Selected>, previous: Option<Proxies>,
                           proxies: Proxies, current: bool, group: string, choice: Option<Option<string>>)
    requires Holds(p, group, choice)
    requires choice.Some? ==> choice.value.Some? && !Refuted(group, choice.value.value, previous, proxies)
    ensures var r := Persisted(p, uid, original, Reconcile(original, previous, proxies).selected, current, true);
            r.Some? ==> Holds(r.value.0, group, choice)
  {
    if choice.Some? {
      RepairKeepsChoice(p, uid, original, previous, proxies, current, group, choice.value.value);
    } else if current && p.current == Some(uid) && Saved(p).value == original {
      WithSavedIsSaved(p, NonEmpty(Reconcile(original, previous, proxies).selected));
      PlanAddsNoGroup(original, previous, proxies, group);
    }
  }

  lemma WithSavedHolds(p: Profiles, selected: Option<seq<Selected>>, group: string)
    requires CurrentIndex(p).Some?
    ensures Holds(WithSaved(p, selected), group, Choice(selected.GetOr([]), group))
  {
    WithSavedIsSaved(p, selected);
  }

  /** In a list with distinct uids the saved selections are those of the entry with the current uid. */
  lemma SavedIsOf(p: Profiles, x: Item)
    requires UidsDistinct(p.List()) && x in p.List() && p.current.Some? && x.uid == p.current
    ensures Saved(p) == Some(x.selected.GetOr([]))
  {
    var i :| 0 <= i < |p.List()| && p.List()[i] == x;
    var k := Position(p.List(), p.current);
    assert k == Some(i);
  }

  lemma SameEntrySameSaved(p: Profiles, p': Profiles)
    requires Saved(p).Some? && UidsDistinct(p.List()) && UidsDistinct(p'.List()) && p'.current == p.current
    requires forall x <- p.List() :: x.uid == p.current ==> x in p'.List()
    ensures Saved(p') == Saved(p)
  {
    var x := p.List()[CurrentIndex(p).value];
    SavedIsOf(p, x);
    SavedIsOf(p', x);
  }

  lemma AppendKeepsSaved(p: Profiles, item: Item, written: bool)
    requires Saved(p).Some? && Appended(p, item, written).Ok?
    ensures Saved(Appended(p, item, written).value) == Saved(p)
  {
    var p', i := Appended(p, item, written).value, CurrentIndex(p).value;
    assert forall k | 0 <= k <= i :: p'.List()[k] == p.List()[k];
    assert Position(p'.List(), p.current) == Some(i);
  }

  lemma MoveKeepsSaved(p: Profiles, active: string, over: string)
    requires Saved(p).Some? && UidsDistinct(p.List())
    ensures Saved(Perform(p, Op.Reorder(active, over))) == Saved(p)
  {
    var p' := Perform(p, Op.Reorder(active, over));
    ReorderMoves(p.List(), active, over);
    DistinctByMultiset(p.List(), p'.List());
    forall x <- p.List() ensures x in p'.List() {
      assert x in multiset(p.List());
    }
    SameEntrySameSaved(p, p');
  }

  lemma DeleteKeepsSaved(p: Profiles, uid: string)
    requires Saved(p).Some? && UidsDistinct(p.List()) && Deleted(p, uid).Ok?
    requires p.current !in Targets(p.List(), uid)
    ensures Saved(Deleted(p, uid).value.0) == Saved(p)
  {
    var items, targets := p.List(), Targets(p.List(), uid);
    assert targets[0] == Some(uid) && targets[0] in targets;
    TakeAllKeeps(items, targets);
    WithoutIff(items, targets);
    SameEntrySameSaved(p, Deleted(p, uid).value.0);
  }

  /** Rewriting an entry leaves every uid, so it reaches the saved selections exactly on the current profile. */
  lemma RewritingSaved(p: Profiles, uid: string, f: Item -> Item)
    requires Saved(p).Some? && forall x :: f(x).uid == x.uid
    ensures var p' := Rewritten(p, uid, f);
      && CurrentIndex(p') == CurrentIndex(p)
      && Saved(p') == if p.current == Some(uid) then Some(f(p.List()[CurrentIndex(p).value]).selected.GetOr([]))
                      else Saved(p)
  {
    var p', k := Rewritten(p, uid, f), CurrentIndex(p).value;
    assert |p'.List()| == |p.List()| && forall j | 0 <= j < |p.List()| :: p'.List()[j].uid == p.List()[j].uid;
    assert Position(p'.List(), p.current) == Some(k);
  }

  /** A patch of the current profile that carries selections replaces what is saved; no other patch touches it. */
  lemma PatchedSaved(p: Profiles, uid: string, patch: Item)
    requires Saved(p).Some?
    ensures Saved(Rewritten(p, uid, PatchOf(patch)))
         == if p.current == Some(uid) && patch.selected.Some? then patch.selected else Saved(p)
  {
    RewritingSaved(p, uid, PatchOf(patch));
  }

  /** Refreshing a profile never touches what is saved. */
  lemma RefreshedSaved(p: Profiles, uid: string, item: Item)
    requires Saved(p).Some?
    ensures Saved(Rewritten(p, uid, RefreshOf(uid, item))) == Saved(p)
  {
    RewritingSaved(p, uid, RefreshOf(uid, item));
  }

  /** Such an update, if it succeeds, keeps the choice. */
  lemma UpdateKeepsChoice(p: Profiles, u: StoreUpdate, group: string, choice: Option<Option<string>>)
    requires Holds(p, group, choice) && LeavesChoice(p, u, group, choice)
    ensures var r := Closure(u)(p); r.Some? ==> Holds(r.value, group, choice)
  {
    var selected := Saved(p).value;
    match u
    case Record(g, node, saved) =>
      if g != group {
        OtherRecordKeepsChoice(selected, g, node, group);
      } else {
        SameRecordKeepsChoice(selected, group, node);
      }
      WithSavedHolds(p, Some(RecordIn(selected, g, node)), group);
    case Forget(g, saved) =>
      ForgetKeepsOthers(selected, g, group);
      WithSavedHolds(p, NonEmpty(ForgetIn(selected, g)), group);
    case Repair(uid, original, previous, proxies, current, saved) =>
      RepairLeavesChoice(p, uid, original, previous, proxies, current, group, choice);
    case Switch(target) =>
    case AppendProfile(item, written) =>
      if Appended(p, item, written).Ok? {
        AppendKeepsSaved(p, item, written);
      }
    case MoveProfile(active, over, saved) => MoveKeepsSaved(p, active, over);
    case DeleteProfile(uid, verdict) =>
      if Deleted(p, uid).Ok? {
        DeleteKeepsSaved(p, uid);
      }
    case PatchProfile(uid, patch, saved) => PatchedSaved(p, uid, patch);
    case RefreshProfile(uid, item, written, saved) => RefreshedSaved(p, uid, item);
    case SaveFile(saved) =>
    case RaiseIntervals(saved) =>
  }

  /** A patch of the current profile that carries selections is what a restore honours from then on. */
  lemma PatchSetsChoice(p: Profiles, uid: string, patch: Item, saved: bool, group: string)
    requires Saved(p).Some? && p.current == Some(uid) && patch.selected.Some?
    ensures var r := Closure(PatchProfile(uid, patch, saved))(p);
            r.Some? ==> Holds(r.value, group, Choice(patch.selected.value, group))
  {
    PatchedSaved(p, uid, patch);
  }

  /** The step commits no draft, and if it writes, its update has no business with the group's choice. */
  ghost predicate Spares(s: State<Profiles>, act: Action<Profiles>, group: string, choice: Option<Option<string>>) {
    && !CommitsDraft(s, act)
    && (act.Run? && Writes(s, act.t) ==>
          exists u :: s.tasks[act.t].f == Closure(u) && LeavesChoice(s.store.Committed(), u, group, choice))
  }

  ghost predicate HeldIn(s: State<Profiles>, group: string, choice: Option<Option<string>>) {
    s.store.committed in s.store.heap && Holds(s.store.Committed(), group, choice)
  }

  lemma StepKeepsChoice(s: State<Profiles>, act: Action<Profiles>, group: string, choice: Option<Option<string>>)
    requires Inv(s) && Enabled(s, act) && Spares(s, act, group, choice) && HeldIn(s, group, choice)
    ensures HeldIn(Next(s, act), group, choice)
  {
    StepRefines(s, act);
    if act.Run? && Writes(s, act.t) {
      var u :| s.tasks[act.t].f == Closure(u) && LeavesChoice(s.store.Committed(), u, group, choice);
      UpdateKeepsChoice(s.store.Committed(), u, group, choice);
    }
  }

  /**
   A choice lasts, in every interleaving of the layer's updates: what a restore finds for a group stays what it is as
   long as no step records or forgets that group, repairs it away on evidence, patches another choice for it into the
   current profile, switches or removes that profile, or commits a draft; and none moves or deletes profiles in a list
   that repeats a uid.
   */
  lemma {:induction false} ChoiceLasts(trace: seq<State<Profiles>>, acts: seq<Action<Profiles>>, i: nat, j: nat,
      group: string, choice: Option<Option<string>>)
    requires IsRun(trace, acts) && i <= j <= |acts| && HeldIn(trace[i], group, choice)
    requires forall k | i <= k < j :: Spares(trace[k], acts[k], group, choice)
    ensures HeldIn(trace[j], group, choice)
    decreases j
  {
    if i < j {
      ChoiceLasts(trace, acts, i, j - 1, group, choice);
      RunKeepsInv(trace, acts, j - 1);
      StepKeepsChoice(trace[j - 1], acts[j - 1], group, choice);
    }
  }

  lemma WriteTakesEffect(trace: seq<State<Profiles>>, acts: seq<Action<Profiles>>, i: nat)
    requires IsRun(trace, acts) && i < |acts| && acts[i].Run? && Writes(trace[i], acts[i].t)
    ensures Inv(trace[i + 1])
    ensures trace[i + 1].store.Committed() == trace[i].tasks[acts[i].t].f(trace[i].store.Committed()).value
  {
    RunKeepsInv(trace, acts, i);
    StepRefines(trace[i], acts[i]);
  }

  /**
   A recorded node stays the group's choice from the write on, whatever races with it, under the same proviso. It
   becomes the choice at all exactly when the group had one record at most, or its last named the node already.
   */
  lemma RecordedChoiceLasts(trace: seq<State<Profiles>>, acts: seq<Action<Profiles>>, i: nat, j: nat,
      group: string, node: string, saved: bool)
    requires IsRun(trace, acts) && i < j <= |acts| && acts[i].Run? && Writes(trace[i], acts[i].t)
    requires trace[i].tasks[acts[i].t].f == RecordUpdate(group, node, saved)
    requires Saved(trace[i].store.Committed()).Some?
    requires var selected := Saved(trace[i].store.Committed()).value;
             !Repeated(selected, group) || Choice(selected, group) == Some(Some(node))
    requires forall k | i < k < j :: Spares(trace[k], acts[k], group, Some(Some(node)))
    ensures HeldIn(trace[j], group, Some(Some(node)))
  {
    var p := trace[i].store.Committed();
    WriteTakesEffect(trace, acts, i);
    RecordTakesEffectIff(Saved(p).value, group, node);
    WithSavedHolds(p, Some(RecordIn(Saved(p).value, group, node)), group);
    ChoiceLasts(trace, acts, i + 1, j, group, Some(Some(node)));
  }

  /** A forgotten group stays without a choice, under the same proviso: no repair brings it back. */
  lemma ForgottenStaysForgotten(trace: seq<State<Profiles>>, acts: seq<Action<Profiles>>, i: nat, j: nat,
      group: string, saved: bool)
    requires IsRun(trace, acts) && i < j <= |acts| && acts[i].Run? && Writes(trace[i], acts[i].t)
    requires trace[i].tasks[acts[i].t].f == ForgetUpdate(group, saved)
    requires Saved(trace[i].store.Committed()).Some?
    requires forall k | i < k < j :: Spares(trace[k], acts[k], group, None)
    ensures HeldIn(trace[j], group, None)
  {
    var p := trace[i].store.Committed();
    WriteTakesEffect(trace, acts, i);
    ForgetKeepsOthers(Saved(p).value, group, group);
    WithSavedHolds(p, NonEmpty(ForgetIn(Saved(p).value, group)), group);
    ChoiceLasts(trace, acts, i + 1, j, group, None);
  }

  // ---- Switching profiles ---------------------------------------------------------------------

  /**
   A profile switch loses nothing committed meanwhile: when its update writes, the entries are those of
   the latest committed value, and the target becomes current if it still exists.
   */
  lemma SwitchLosesNothing(trace: seq<State<Profiles>>, acts: seq<Action<Profiles>>, i: nat, target: string)
    requires IsRun(trace, acts) && i < |acts| && acts[i].Run? && acts[i].t < |trace[i].tasks|
    requires trace[i].tasks[acts[i].t].f == SwitchUpdate(target)
    ensures Inv(trace[i]) && Inv(trace[i + 1])
    ensures var p, p' := trace[i].store.Committed(), trace[i + 1].store.Committed();
            && p'.List() == p.List()
            && (p'.current == p.current || (p'.current == Some(target) && Has(p.List(), target)))
            && (Writes(trace[i], acts[i].t) && Has(p.List(), target) ==> p'.current == Some(target))
  {
    RunKeepsInv(trace, acts, i);
    StepRefines(trace[i], acts[i]);
  }

  lemma NoDraftAfter(trace: seq<State<Profiles>>, acts: seq<Action<Profiles>>, n: nat)
    requires IsRun(trace, acts) && n < |acts|
    requires acts[n].Discard? || (trace[n].store.draft.None? && !acts[n].Edit?)
    ensures trace[n + 1].store.draft.None?
  {
    RunStepOutcome(trace, acts, n);
  }

  /** After a discard there is no draft until the next edit. */
  lemma {:induction false} NoDraftUntilEdit(trace: seq<State<Profiles>>, acts: seq<Action<Profiles>>, d: nat, j: nat)
    requires IsRun(trace, acts) && d < j <= |acts| && acts[d].Discard?
    requires forall k | d < k < j :: !acts[k].Edit?
    ensures trace[j].store.draft.None?
    decreases j
  {
    if d < j - 1 {
      NoDraftUntilEdit(trace, acts, d, j - 1);
    }
    NoDraftAfter(trace, acts, j - 1);
  }

  lemma {:induction false} TasksOnlyGrow(trace: seq<State<Profiles>>, acts: seq<Action<Profiles>>, a: nat, b: nat)
    requires IsRun(trace, acts) && a <= b <= |acts|
    ensures |trace[a].tasks| <= |trace[b].tasks|
    decreases b
  {
    if a < b {
      TasksOnlyGrow(trace, acts, a, b - 1);
      RunKeepsInv(trace, acts, b - 1);
      TasksAfter(trace[b - 1], acts[b - 1]);
    }
  }

  /**
   The whole end of a switch, in every interleaving: the staged draft is discarded at step `d`, and the update that
   makes the target current, started after that, finishes at step `i`. If nobody stages another draft in between, the
   update ends as written: the entries are the latest committed ones, the target is current if it still exists, and no
   draft is left.
   */
  lemma SwitchEndsAsWritten(trace: seq<State<Profiles>>, acts: seq<Action<Profiles>>, d: nat, i: nat, target: string)
    requires IsRun(trace, acts) && d < i < |acts| && acts[d].Discard? && acts[i].Run?
    requires |trace[d].tasks| <= acts[i].t < |trace[i].tasks| && trace[i].tasks[acts[i].t].pc.Editing?
    requires trace[i].tasks[acts[i].t].f == SwitchUpdate(target)
    requires forall k | d < k < i :: !acts[k].Edit?
    ensures Inv(trace[i]) && Inv(trace[i + 1]) && acts[i].t < |trace[i + 1].tasks|
    ensures trace[i + 1].tasks[acts[i].t].pc == Closing(Wrote)
    ensures trace[i + 1].store.draft.None?
    ensures trace[i + 1].store.Committed() == Patched(trace[i].store.Committed(), Some(target))
  {
    var r := UpdateOutcome(trace, acts, i);
    if r < d {
      TasksOnlyGrow(trace, acts, r, d);
    }
    forall k | r < k <= i ensures trace[k].store.draft.None? {
      NoDraftUntilEdit(trace, acts, d, k);
    }
  }

  function RestoreEdit(target: string): Profiles -> Profiles {
    p => Patched(p, Some(target))
  }

  lemma {:induction false} OnlyFirstEdits(v: Profiles, changes: seq<Change<Profiles>>, e: nat, n: nat)
    requires e < n <= |changes| && changes[e].Edited? && forall k | e < k < n :: !changes[k].Edited?
    ensures Edits(v, changes, e, n) == changes[e].edit(v)
    decreases n
  {
    if e < n - 1 {
      OnlyFirstEdits(v, changes, e, n - 1);
    }
  }

  /**
   Taking a switch back stages an edit at step `e` and commits it at a later step `i`. In every interleaving that
   puts back the entries of when it was staged, with the earlier profile current if it is among them ...
   */
  lemma RestoreGoesBackToStaging(trace: seq<State<Profiles>>, acts: seq<Action<Profiles>>, i: nat, target: string)
    returns (e: nat)
    requires IsRun(trace, acts) && i < |acts| && CommitsDraft(trace[i], acts[i])
    requires acts[StagedAt(trace, acts, i)].edit == RestoreEdit(target)
    requires forall k | StagedAt(trace, acts, i) < k < i :: !acts[k].Edit?
    ensures e == StagedAt(trace, acts, i) && Inv(trace[e]) && Inv(trace[i + 1])
    ensures trace[i + 1].store.Committed() == Patched(trace[e].store.Committed(), Some(target))
    ensures trace[i + 1].store.Committed().List() == trace[e].store.Committed().List()
  {
    e := ApplyCommitsEdits(trace, acts, i);
    OnlyFirstEdits(trace[e].store.Committed(), Changes(trace, acts), e, i);
  }

  /**
   ... so that what was committed in between is lost. A run, for any profiles and any new profile: it is appended by an
   update between the two calls that take a switch back, is there after its write, and is gone after the apply.
   */
  lemma RestoreLosesAppend(v: Profiles, x: Item, target: string)
    returns (trace: seq<State<Profiles>>, acts: seq<Action<Profiles>>)
    requires x.uid.Some? && x.fileData.None? && x !in v.List()
    ensures IsRun(trace, acts) && |acts| == 6
    ensures Inv(trace[0]) && Inv(trace[5]) && Inv(trace[6]) && trace[0].store.Committed() == v
    ensures acts[0] == Spawn(AppendUpdate(x, true))
    ensures acts[3].Edit? && acts[3].edit == RestoreEdit(target) && acts[5] == Apply
    ensures x in trace[5].store.Committed().List()
    ensures x !in trace[6].store.Committed().List()
  {
    trace, acts := WrittenThenLost(v, AppendUpdate(x, true), RestoreEdit(target));
    var appended := trace[5].store.Committed().List();
    assert Stored(x) == x && appended == v.List() + [x];
    assert appended[|v.List()|] == x;
  }
}
