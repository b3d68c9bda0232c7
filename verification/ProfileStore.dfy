/** The closures that read and rewrite the current profile's saved selections, and the end of a profile switch. */
module ProfileStore {
  import opened Basics
  import opened Selection
  import opened SelectionLaws
  import opened ProfileList
  import opened DraftStore

  // ---- The closures on values -----------------------------------------------------------------

  function CurrentIndex(p: Profiles): Option<nat> {
    if p.current.None? then None else Position(p.List(), p.current)
  }

  /** The selections saved for the current profile, if there is one. */
  function Saved(p: Profiles): Option<seq<Selected>> {
    var i := CurrentIndex(p);
    if i.None? then None else Some(p.List()[i.value].selected.GetOr([]))
  }

  function WithSaved(p: Profiles, selected: Option<seq<Selected>>): Profiles
    requires CurrentIndex(p).Some?
  {
    var i := CurrentIndex(p).value;
    p.(items := Some(p.List()[i := p.List()[i].(selected := selected)]))
  }

  function NonEmpty(selected: seq<Selected>): Option<seq<Selected>> {
    if selected == [] then None else Some(selected)
  }

  /** First record naming the group. */
  function FirstIndex(selected: seq<Selected>, group: string): (r: Option<nat>)
    ensures r.Some? ==> r.value < |selected| && selected[r.value].name == Some(group)
    ensures r.Some? ==> forall k | 0 <= k < r.value :: selected[k].name != Some(group)
    ensures r.None? ==> forall k | 0 <= k < |selected| :: selected[k].name != Some(group)
  {
    if selected == [] then None
    else if selected[0].name == Some(group) then Some(0)
    else
      var r := FirstIndex(selected[1..], group);
      assert forall k | 1 <= k < |selected| :: selected[k] == selected[1..][k - 1];
      if r.Some? then Some(r.value + 1) else None
  }

  function RecordIn(selected: seq<Selected>, group: string, node: string): seq<Selected> {
    var i := FirstIndex(selected, group);
    if i.None? then selected + [Selected(Some(group), Some(node))]
    else selected[i.value := Selected(Some(group), Some(node))]
  }

  function ForgetIn(selected: seq<Selected>, group: string): seq<Selected> {
    if selected == [] then []
    else (if selected[0].name == Some(group) then [] else [selected[0]]) + ForgetIn(selected[1..], group)
  }

  /** New value and whether anything was recorded; `None` when saving the file fails. */
  function Recorded(p: Profiles, group: string, node: string, saved: bool): Option<(Profiles, bool)> {
    var list := Saved(p);
    if list.None? || RecordIn(list.value, group, node) == list.value then Some((p, false))
    else if saved then Some((WithSaved(p, Some(RecordIn(list.value, group, node))), true)) else None
  }

  function Forgotten(p: Profiles, group: string, saved: bool): Option<(Profiles, bool)> {
    var list := Saved(p);
    if list.None? || ForgetIn(list.value, group) == list.value then Some((p, false))
    else if saved then Some((WithSaved(p, NonEmpty(ForgetIn(list.value, group))), true)) else None
  }

  /** `current` says whether the repair's generation was still the current one when it looked. */
  function Persisted(p: Profiles, uid: string, original: seq<Selected>, repaired: seq<Selected>,
                     current: bool, saved: bool): Option<(Profiles, bool)> {
    if !current || p.current != Some(uid) then Some((p, false))
    else if CurrentIndex(p).None? then None
    else if Saved(p).value != original then Some((p, false))
    else if saved then Some((WithSaved(p, NonEmpty(repaired)), true)) else None
  }

  function Value(r: Option<(Profiles, bool)>): Option<Profiles> {
    if r.Some? then Some(r.value.0) else None
  }

  function RecordUpdate(group: string, node: string, saved: bool): Profiles -> Option<Profiles> {
    p => Value(Recorded(p, group, node, saved))
  }

  function ForgetUpdate(group: string, saved: bool): Profiles -> Option<Profiles> {
    p => Value(Forgotten(p, group, saved))
  }

  function PersistUpdate(uid: string, original: seq<Selected>, repaired: seq<Selected>, current: bool, saved: bool):
    Profiles -> Option<Profiles>
  {
    p => Value(Persisted(p, uid, original, repaired, current, saved))
  }

  function SwitchUpdate(target: string): Profiles -> Option<Profiles> {
    p => Some(Patched(p, Some(target)))
  }

  // ---- The closures on the profiles object -----------------------------------------------------

  method FindCurrent(profiles: IProfiles) returns (r: Option<nat>)
    ensures r == CurrentIndex(profiles.View())
  {
    if profiles.current.None? || profiles.items.None? {
      return None;
    }
    r := Position(profiles.items.value, profiles.current);
  }

  method RecordSelectedNode(profiles: IProfiles, group: string, node: string, saved: bool) returns (r: Result<bool, ()>)
    modifies profiles
    ensures profiles.View() == Recorded(old(profiles.View()), group, node, true).value.0
    ensures var spec := Recorded(old(profiles.View()), group, node, saved);
            r == if spec.Some? then Ok(spec.value.1) else Err(())
  {
    var index := FindCurrent(profiles);
    if index.None? {
      return Ok(false);
    }
    var items := profiles.items.value;
    var selected := items[index.value].selected.GetOr([]);
    var i := 0;
    while i < |selected| && selected[i].name != Some(group)
      invariant i <= |selected|
      invariant forall k | 0 <= k < i :: selected[k].name != Some(group)
    {
      i := i + 1;
    }
    if i < |selected| {
      assert FirstIndex(selected, group) == Some(i);
      if selected[i].now == Some(node) {
        assert selected[i := Selected(Some(group), Some(node))] == selected;
        return Ok(false);
      }
      ghost var before := selected[i];
      selected := selected[i := selected[i].(now := Some(node))];
      assert selected[i] != before;
    } else {
      assert FirstIndex(selected, group) == None;
      selected := selected + [Selected(Some(group), Some(node))];
    }
    profiles.items := Some(items[index.value := items[index.value].(selected := Some(selected))]);
    if !saved {
      return Err(());
    }
    r := Ok(true);
  }

  method RemoveSelectedNode(selected: seq<Selected>, group: string) returns (kept: seq<Selected>, removed: bool)
    ensures kept == ForgetIn(selected, group)
    ensures removed <==> kept != selected
  {
    kept := [];
    for i := |selected| downto 0
      invariant kept == ForgetIn(selected[i..], group)
    {
      assert selected[i..][1..] == selected[i + 1..];
      if selected[i].name != Some(group) {
        kept := [selected[i]] + kept;
      }
    }
    ForgetShortens(selected, group);
    removed := |kept| != |selected|;
  }

  lemma {:induction false} ForgetShortens(selected: seq<Selected>, group: string)
    ensures |ForgetIn(selected, group)| <= |selected|
    ensures |ForgetIn(selected, group)| == |selected| <==> ForgetIn(selected, group) == selected
  {
    if selected != [] {
      ForgetShortens(selected[1..], group);
    }
  }

  method ForgetSelectedNode(profiles: IProfiles, group: string, saved: bool) returns (r: Result<bool, ()>)
    modifies profiles
    ensures profiles.View() == Forgotten(old(profiles.View()), group, true).value.0
    ensures var spec := Forgotten(old(profiles.View()), group, saved);
            r == if spec.Some? then Ok(spec.value.1) else Err(())
  {
    var index := FindCurrent(profiles);
    if index.None? {
      return Ok(false);
    }
    var items := profiles.items.value;
    var selected, removed := RemoveSelectedNode(items[index.value].selected.GetOr([]), group);
    if !removed {
      return Ok(false);
    }
    profiles.items := Some(items[index.value := items[index.value].(selected := NonEmpty(selected))]);
    if !saved {
      return Err(());
    }
    r := Ok(true);
  }

  /**
   The repair's write. Its generation is looked at twice, before the update and inside it; a failed save leaves the
   private copy rewritten, which is then thrown away.
   */
  method PersistReconciledSelected(profiles: IProfiles, uid: string, original: seq<Selected>, repaired: seq<Selected>,
                                   currentBefore: bool, current: bool, saved: bool) returns (r: Result<bool, ()>)
    modifies profiles
    ensures var spec := Persisted(old(profiles.View()), uid, original, repaired, currentBefore && current, true);
            profiles.View() == if spec.Some? then spec.value.0 else old(profiles.View())
    ensures var spec := Persisted(old(profiles.View()), uid, original, repaired, currentBefore && current, saved);
            r == if spec.Some? then Ok(spec.value.1) else Err(())
    ensures var p := old(profiles.View());
            && (r == Ok(true) <==> Applies(p, uid, original, currentBefore && current) && saved)
            && (r == Ok(true) ==> Saved(profiles.View()) == Some(repaired) && OnlySelectionsDiffer(p, profiles.View()))
  {
    PersistedIff(profiles.View(), uid, original, repaired, currentBefore && current, saved);
    if !currentBefore {
      return Ok(false);
    }
    if !current || profiles.current != Some(uid) {
      return Ok(false);
    }
    var index := FindCurrent(profiles);
    if index.None? {
      return Err(());
    }
    var items := profiles.items.value;
    if items[index.value].selected.GetOr([]) != original {
      return Ok(false);
    }
    profiles.items := Some(items[index.value := items[index.value].(selected := NonEmpty(repaired))]);
    if !saved {
      return Err(());
    }
    r := Ok(true);
  }

  /**
   Finishing a profile switch, when nothing interferes: the staged draft goes, and the target becomes
   current in the committed value itself.
   */
  method CommitCurrentProfile(profiles: Draft<Profiles>, current: Option<string>, spare: Addr) returns (ok: bool)
    requires profiles.View().WellFormed() && spare !in profiles.heap
    modifies profiles
    ensures profiles.View().WellFormed() && profiles.draft.None? && ok
    ensures var p := old(profiles.View().Committed());
            profiles.View().Committed() == if current.None? then p else Patched(p, current)
  {
    profiles.Discard();
    if current.None? {
      return true;
    }
    var local, original := profiles.BeginModify();
    var committed := new IProfiles(local);
    committed.PatchConfig(Profiles(current, None));
    ok := profiles.FinishModify(original, committed.View(), spare);
    profiles.DropArc(original);
  }

  // ---- Laws of the closures -------------------------------------------------------------------

  /** Every closure rewrites at most the saved selections of the current profile. */
  ghost predicate OnlySelectionsDiffer(p: Profiles, p': Profiles) {
    && p'.current == p.current && |p'.List()| == |p.List()|
    && forall i | 0 <= i < |p.List()| ::
         p'.List()[i] == p.List()[i]
         || (p.current.Some? && p.List()[i].uid == p.current
             && p'.List()[i] == p.List()[i].(selected := p'.List()[i].selected))
  }

  lemma WithSavedIsSaved(p: Profiles, selected: Option<seq<Selected>>)
    requires CurrentIndex(p).Some?
    ensures CurrentIndex(WithSaved(p, selected)) == CurrentIndex(p)
    ensures Saved(WithSaved(p, selected)) == Some(selected.GetOr([]))
    ensures OnlySelectionsDiffer(p, WithSaved(p, selected))
  {
    var i, p' := CurrentIndex(p).value, WithSaved(p, selected);
    var j := Position(p'.List(), p.current);
    assert p'.List()[i].uid == p.current;
    assert forall k | 0 <= k < |p.List()| :: p'.List()[k].uid == p.List()[k].uid;
  }

  /** No empty list is stored for the current profile. */
  predicate StoresNoEmptyList(p: Profiles) {
    CurrentIndex(p).Some? ==> p.List()[CurrentIndex(p).value].selected != Some([])
  }

  /** The repair has the current profile and the list its plan was made from before it. */
  predicate Applies(p: Profiles, uid: string, original: seq<Selected>, current: bool) {
    current && p.current == Some(uid) && Saved(p) == Some(original)
  }

  /** What is saved is what the first entry with the current uid holds. */
  lemma SavedIsFirst(p: Profiles, i: nat)
    requires i < |p.List()| && p.current.Some? && p.List()[i].uid == p.current
    requires forall k | 0 <= k < i :: p.List()[k].uid != p.current
    ensures Saved(p) == Some(if p.List()[i].selected.Some? then p.List()[i].selected.value else [])
  {
  }

  /**
   The repair, exactly: it fails if its profile is current and missing or the save fails, it writes the repaired list
   and nothing else if it applies and the save succeeds, and it changes nothing otherwise.
   */
  lemma PersistedIff(p: Profiles, uid: string, original: seq<Selected>, repaired: seq<Selected>, current: bool,
                     saved: bool)
    ensures var r := Persisted(p, uid, original, repaired, current, saved);
      && (r.None? <==> current && p.current == Some(uid)
                       && (!Has(p.List(), uid) || (Saved(p) == Some(original) && !saved)))
      && (r.Some? && r.value.1 <==> Applies(p, uid, original, current) && saved)
      && (r.Some? && r.value.1 ==> Saved(r.value.0) == Some(repaired) && OnlySelectionsDiffer(p, r.value.0)
                                   && StoresNoEmptyList(r.value.0))
      && (r.Some? && !r.value.1 ==> r.value.0 == p)
  {
    if CurrentIndex(p).Some? {
      WithSavedIsSaved(p, NonEmpty(repaired));
    }
  }

  /** `list'` is the list with the first record of the group naming the node, or with such a record at the end. */
  ghost predicate RecordsFirst(list: seq<Selected>, list': seq<Selected>, group: string, node: string) {
    exists i :: 0 <= i <= |list| && FirstOrEnd(list, group, i)
      && list' == list[..i] + [Selected(Some(group), Some(node))] + list[if i < |list| then i + 1 else i..]
  }

  predicate FirstOrEnd(list: seq<Selected>, group: string, i: nat) {
    && i <= |list| && (i < |list| ==> list[i].name == Some(group))
    && forall k | 0 <= k < i :: list[k].name != Some(group)
  }

  lemma RecordInIs(list: seq<Selected>, group: string, node: string)
    ensures RecordsFirst(list, RecordIn(list, group, node), group, node)
  {
    var i := FirstIndex(list, group).GetOr(|list|);
    assert FirstOrEnd(list, group, i);
    assert RecordIn(list, group, node)
        == list[..i] + [Selected(Some(group), Some(node))] + list[if i < |list| then i + 1 else i..];
  }

  /** Recording, exactly: nothing to do without a current profile or if the first record names the node already. */
  lemma RecordedIff(p: Profiles, group: string, node: string, saved: bool)
    ensures var r := Recorded(p, group, node, saved);
      var due := Saved(p).Some? && !RecordsFirst(Saved(p).value, Saved(p).value, group, node);
      && (r.None? <==> due && !saved)
      && (r.Some? && r.value.1 <==> due && saved)
      && (r.Some? && r.value.1 ==> Saved(r.value.0).Some? && OnlySelectionsDiffer(p, r.value.0)
                                   && RecordsFirst(Saved(p).value, Saved(r.value.0).value, group, node))
      && (r.Some? && !r.value.1 ==> r.value.0 == p)
  {
    if Saved(p).Some? {
      var list := Saved(p).value;
      RecordInIs(list, group, node);
      WithSavedIsSaved(p, Some(RecordIn(list, group, node)));
      if RecordsFirst(list, list, group, node) {
        RecordedAlready(list, group, node);
      }
    }
  }

  lemma RecordedAlready(list: seq<Selected>, group: string, node: string)
    requires RecordsFirst(list, list, group, node)
    ensures RecordIn(list, group, node) == list
  {
    var i :| 0 <= i <= |list| && FirstOrEnd(list, group, i)
      && list == list[..i] + [Selected(Some(group), Some(node))] + list[if i < |list| then i + 1 else i..];
    assert i < |list|;
    assert list[i] == Selected(Some(group), Some(node));
    assert FirstIndex(list, group) == Some(i);
  }

  lemma {:induction false} ForgetChangesIff(selected: seq<Selected>, group: string)
    ensures ForgetIn(selected, group) != selected <==> Names(selected, group)
  {
    ForgetIff(selected, group);
    if i :| 0 <= i < |selected| && selected[i].name == Some(group) {
      assert selected[i] in selected && selected[i] !in ForgetIn(selected, group);
    } else if selected != [] {
      assert forall k | 0 <= k < |selected[1..]| :: selected[1..][k] == selected[k + 1];
      ForgetChangesIff(selected[1..], group);
    }
  }

  /** Forgetting, exactly: there must be a record; then every record of the group goes and no empty list stays. */
  lemma ForgottenIff(p: Profiles, group: string, saved: bool)
    ensures var r := Forgotten(p, group, saved);
      var due := Saved(p).Some? && Names(Saved(p).value, group);
      && (r.None? <==> due && !saved)
      && (r.Some? && r.value.1 <==> due && saved)
      && (r.Some? && r.value.1 ==>
            && Saved(r.value.0).Some? && OnlySelectionsDiffer(p, r.value.0) && StoresNoEmptyList(r.value.0)
            && forall x :: x in Saved(r.value.0).value <==> x in Saved(p).value && x.name != Some(group))
      && (r.Some? && !r.value.1 ==> r.value.0 == p)
  {
    if Saved(p).Some? {
      ForgetChangesIff(Saved(p).value, group);
      ForgetIff(Saved(p).value, group);
      WithSavedIsSaved(p, NonEmpty(ForgetIn(Saved(p).value, group)));
    }
  }

  lemma {:induction false} NoChoiceIff(selected: seq<Selected>, group: string)
    ensures Choice(selected, group).None? <==> FirstIndex(selected, group).None?
  {
    if Choice(selected, group).Some? {
      var i := LastRecord(selected, group);
    } else if selected != [] {
      NoChoiceIff(selected[..|selected| - 1], group);
    }
  }

  /** The group is recorded more than once. */
  ghost predicate Repeated(selected: seq<Selected>, group: string) {
    exists i, j :: 0 <= i < j < |selected| && selected[i].name == selected[j].name == Some(group)
  }

  /**
   Recording rewrites the first record of a group while a restore honours the last. So the recorded node
   is the one restored exactly when the group has one record at most, or its last already names the node.
   Other groups are untouched.
   */
  lemma RecordTakesEffectIff(selected: seq<Selected>, group: string, node: string)
    ensures Choice(RecordIn(selected, group, node), group) == Some(Some(node)) <==>
            !Repeated(selected, group) || Choice(selected, group) == Some(Some(node))
  {
    var after := RecordIn(selected, group, node);
    var first := FirstIndex(selected, group);
    NoChoiceIff(selected, group);
    if first.None? {
      ChoiceIff(after, group, |selected|);
    } else {
      var last := LastRecord(selected, group);
      if last == first.value {
        ChoiceIff(after, group, last);
        assert forall j | 0 <= j < |selected| && j != last :: selected[j].name != Some(group);
      } else {
        ChoiceIff(after, group, last);
        assert selected[first.value].name == selected[last].name == Some(group);
      }
    }
  }

  /** A recorded choice that a restore ignores. */
  lemma RecordCanBeShadowed()
    ensures var list := [Selected(Some("g"), Some("a")), Selected(Some("g"), Some("b"))];
            Choice(RecordIn(list, "g", "c"), "g") == Some(Some("b"))
  {
    var list := [Selected(Some("g"), Some("a")), Selected(Some("g"), Some("b"))];
    assert FirstIndex(list, "g") == Some(0);
    ChoiceIff(RecordIn(list, "g", "c"), "g", 1);
  }

  lemma {:induction false} ForgetIff(selected: seq<Selected>, group: string)
    ensures forall s :: s in ForgetIn(selected, group) <==> s in selected && s.name != Some(group)
  {
    if selected != [] {
      ForgetIff(selected[1..], group);
    }
  }

  lemma {:induction false} ForgetAppend(a: seq<Selected>, b: seq<Selected>, group: string)
    ensures ForgetIn(a + b, group) == ForgetIn(a, group) + ForgetIn(b, group)
  {
    if a == [] {
      assert a + b == b;
    } else {
      assert (a + b)[1..] == a[1..] + b;
      ForgetAppend(a[1..], b, group);
    }
  }

  lemma ForgetMiddle(before: seq<Selected>, x: Selected, after: seq<Selected>, group: string)
    requires x.name == Some(group)
    ensures ForgetIn(before + [x] + after, group) == ForgetIn(before, group) + ForgetIn(after, group)
  {
    ForgetAppend(before + [x], after, group);
    ForgetAppend(before, [x], group);
    assert [x][1..] == [] && ForgetIn([x], group) == [];
  }

  /** Forgetting a group undoes any recording of it: every other record stays, in order. */
  lemma ForgetUndoesRecord(selected: seq<Selected>, group: string, node: string)
    ensures ForgetIn(RecordIn(selected, group, node), group) == ForgetIn(selected, group)
    ensures forall s :: s in ForgetIn(selected, group) <==> s in selected && s.name != Some(group)
  {
    ForgetIff(selected, group);
    var entry := Selected(Some(group), Some(node));
    var i := FirstIndex(selected, group);
    if i.None? {
      assert RecordIn(selected, group, node) == selected + [entry] + [];
      ForgetMiddle(selected, entry, [], group);
    } else {
      var before, after := selected[..i.value], selected[i.value + 1..];
      assert selected == before + [selected[i.value]] + after;
      assert RecordIn(selected, group, node) == before + [entry] + after;
      ForgetMiddle(before, selected[i.value], after, group);
      ForgetMiddle(before, entry, after, group);
    }
  }
}
