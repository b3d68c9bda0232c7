/** What runs of profile-list operations keep, and what a deletion or a reordering does to the list. */
module ProfileLaws {
  import opened Basics
  import opened Selection
  import opened ProfileList

  // ---- Distinct uids, existing current ---------------------------------------------------------

  ghost predicate UidsDistinct(items: seq<Item>) {
    && (forall i | 0 <= i < |items| :: items[i].uid.Some?)
    && (forall i, j | 0 <= i < j < |items| :: items[i].uid != items[j].uid)
  }

  ghost predicate CurrentExists(p: Profiles) {
    p.current.Some? ==> Has(p.List(), p.current.value)
  }

  ghost predicate Valid(p: Profiles) {
    UidsDistinct(p.List()) && CurrentExists(p)
  }

  lemma HasIff(items: seq<Item>, uid: string)
    ensures Has(items, uid) <==> exists i :: 0 <= i < |items| && items[i].uid == Some(uid)
  {
  }

  // ---- Deletion -------------------------------------------------------------------------------

  /** The entries none of the targets names, in order. */
  function Without(items: seq<Item>, targets: seq<Option<string>>): seq<Item> {
    if items == [] then []
    else (if items[0].uid in targets then [] else [items[0]]) + Without(items[1..], targets)
  }

  lemma {:induction false} WithoutNothing(items: seq<Item>)
    ensures Without(items, []) == items
  {
    if items != [] {
      WithoutNothing(items[1..]);
    }
  }

  lemma {:induction false} WithoutIff(items: seq<Item>, targets: seq<Option<string>>)
    ensures forall x :: x in Without(items, targets) <==> x in items && x.uid !in targets
    ensures UidsDistinct(items) ==> UidsDistinct(Without(items, targets))
  {
    if items != [] {
      WithoutIff(items[1..], targets);
      var tail, all := Without(items[1..], targets), Without(items, targets);
      if UidsDistinct(items) {
        assert forall i | 0 <= i < |items[1..]| :: items[1..][i] == items[i + 1];
        forall j | 0 <= j < |tail| ensures tail[j].uid.Some? && tail[j].uid != items[0].uid {
          assert tail[j] in items[1..];
        }
      }
    }
  }

  lemma RemoveAtCons<A>(head: A, tail: seq<A>, i: nat)
    requires i < |tail|
    ensures RemoveAt([head] + tail, i + 1) == [head] + RemoveAt(tail, i)
  {
  }

  lemma PositionAfter(items: seq<Item>, t: Option<string>)
    requires items != [] && items[0].uid != t
    ensures Position(items, t) ==
            if Position(items[1..], t).None? then None else Some(Position(items[1..], t).value + 1)
  {
  }

  lemma TailIsDistinct(items: seq<Item>)
    requires UidsDistinct(items) && items != []
    ensures UidsDistinct(items[1..])
    ensures forall x <- items[1..] :: x.uid != items[0].uid
  {
    assert forall i | 0 <= i < |items[1..]| :: items[1..][i] == items[i + 1];
  }

  lemma AbsentStaysAbsent(items: seq<Item>, targets: seq<Option<string>>, t: Option<string>)
    requires forall x <- items :: x.uid != t
    ensures Position(Without(items, targets), t).None?
  {
    var kept := Without(items, targets);
    assert forall k | 0 <= k < |kept| :: kept[k] in kept;
    WithoutIff(items, targets);
  }

  /** What is left after taking out the first entry with a given uid. */
  function TakeFirst(items: seq<Item>, t: Option<string>): seq<Item> {
    var i := Position(items, t);
    if i.None? then items else RemoveAt(items, i.value)
  }

  lemma TakeFirstStep(items: seq<Item>, t: Option<string>)
    requires items != []
    ensures TakeFirst(items, t) == if items[0].uid == t then items[1..] else [items[0]] + TakeFirst(items[1..], t)
  {
    if items[0].uid == t {
      assert RemoveAt(items, 0) == items[1..];
    } else {
      PositionAfter(items, t);
      assert items == [items[0]] + items[1..];
      if Position(items[1..], t).Some? {
        RemoveAtCons(items[0], items[1..], Position(items[1..], t).value);
      }
    }
  }

  lemma WithoutStep(items: seq<Item>, targets: seq<Option<string>>)
    requires items != []
    ensures Without(items, targets) ==
            if items[0].uid in targets then Without(items[1..], targets) else [items[0]] + Without(items[1..], targets)
  {
  }

  lemma TakesNothing(items: seq<Item>, t: Option<string>)
    requires Position(items, t).None?
    ensures TakeFirst(items, t) == items
  {
  }

  /** Taking out the one entry with a given uid is the same as filtering it out. */
  lemma {:induction false} RemoveIsWithout(items: seq<Item>, targets: seq<Option<string>>, t: Option<string>)
    requires UidsDistinct(items)
    ensures Without(items, targets + [t]) == TakeFirst(Without(items, targets), t)
  {
    if items != [] {
      var head, tail, kept := items[0], Without(items[1..], targets), Without(items, targets);
      TailIsDistinct(items);
      RemoveIsWithout(items[1..], targets, t);
      WithoutStep(items, targets);
      WithoutStep(items, targets + [t]);
      if head.uid !in targets {
        assert kept[0] == head && kept[1..] == tail;
        TakeFirstStep(kept, t);
        if head.uid == t {
          AbsentStaysAbsent(items[1..], targets, t);
          TakesNothing(tail, t);
        }
      }
    }
  }

  /** With distinct uids, what is kept is exactly what no target names, in the old order. */
  lemma {:induction false} TakeAllKeeps(items: seq<Item>, targets: seq<Option<string>>)
    requires UidsDistinct(items)
    ensures TakeAll(items, targets).0 == Without(items, targets)
  {
    if targets == [] {
      WithoutNothing(items);
    } else {
      var n := |targets| - 1;
      TakeAllKeeps(items, targets[..n]);
      RemoveIsWithout(items, targets[..n], targets[n]);
      assert targets[..n] + [targets[n]] == targets;
    }
  }

  lemma RemoveAtSplits(items: seq<Item>, i: nat)
    requires i < |items|
    ensures multiset(items) == multiset(RemoveAt(items, i)) + multiset([items[i]])
  {
    assert items == items[..i] + [items[i]] + items[i + 1..];
  }

  /** Whatever the uids: no entry is lost or invented, and every entry taken was a target. */
  lemma {:induction false} TakeAllSplits(items: seq<Item>, targets: seq<Option<string>>)
    ensures var (kept, taken) := TakeAll(items, targets);
            && multiset(items) == multiset(kept) + multiset(taken)
            && forall x <- taken :: x.uid in targets
  {
    if targets != [] {
      var n := |targets| - 1;
      TakeAllSplits(items, targets[..n]);
      var (kept, taken) := TakeAll(items, targets[..n]);
      var i := Position(kept, targets[n]);
      assert targets[n] in targets && forall t <- targets[..n] :: t in targets;
      if i.Some? {
        RemoveAtSplits(kept, i.value);
      }
    }
  }

  /** The planned files are exactly the files of the entries taken. */
  lemma {:induction false} FilesAreOf(taken: seq<Item>)
    ensures forall f :: f in Files(taken) <==> exists x <- taken :: x.file == Some(f)
  {
    if taken != [] {
      FilesAreOf(taken[..|taken| - 1]);
      assert taken == taken[..|taken| - 1] + [taken[|taken| - 1]];
    }
  }

  /** With distinct uids the entries taken are exactly those a target names. */
  lemma TakenIff(items: seq<Item>, targets: seq<Option<string>>)
    requires UidsDistinct(items)
    ensures var (kept, taken) := TakeAll(items, targets);
      && kept == Without(items, targets)
      && multiset(items) == multiset(kept) + multiset(taken)
      && forall x :: x in taken <==> x in items && x.uid in targets
  {
    var (kept, taken) := TakeAll(items, targets);
    TakeAllKeeps(items, targets);
    TakeAllSplits(items, targets);
    WithoutIff(items, targets);
    forall x ensures x in taken <==> x in items && x.uid in targets {
      assert x in items <==> x in multiset(items);
      assert x in kept <==> x in multiset(kept);
      assert x in taken <==> x in multiset(taken);
    }
  }

  /**
   A deletion splits the list: the entry and those its options name go, the rest stay in order, and the
   files to remove are exactly the files of the entries that went.
   */
  lemma DeleteSplits(p: Profiles, uid: string)
    requires UidsDistinct(p.List())
    ensures Deleted(p, uid).Ok? <==> exists x <- p.List() :: x.uid == Some(uid)
    ensures Deleted(p, uid).Ok? ==>
      var targets := Targets(p.List(), uid);
      var (p', files) := Deleted(p, uid).value;
      var gone := multiset(p.List()) - multiset(p'.List());
      && p'.List() == Without(p.List(), targets)
      && multiset(p'.List()) <= multiset(p.List())
      && (forall x :: x in gone <==> x in p.List() && x.uid in targets)
      && (forall f :: f in files <==> exists x <- p.List() :: x.uid in targets && x.file == Some(f))
  {
    HasIff(p.List(), uid);
    if Deleted(p, uid).Ok? {
      var items, targets := p.List(), Targets(p.List(), uid);
      var (kept, taken) := TakeAll(items, targets);
      TakenIff(items, targets);
      FilesAreOf(taken);
      assert multiset(items) - multiset(kept) == multiset(taken);
      assert forall x :: x in taken <==> x in multiset(taken);
    }
  }

  // ---- Reordering -----------------------------------------------------------------------------

  /**
   Reordering permutes: the moved entry ends up where the other was, and the entries other than the
   moved one keep their order. An unknown uid changes nothing.
   */
  lemma ReorderMoves(items: seq<Item>, active: string, over: string)
    ensures var items' := Reordered(items, active, over);
      var from, to := LastPosition(items, active), LastPosition(items, over);
      && multiset(items') == multiset(items)
      && |items'| == |items|
      && (from.None? || to.None? ==> items' == items)
      && (from.Some? && to.Some? ==>
            && items'[to.value] == items[from.value]
            && RemoveAt(items', to.value) == RemoveAt(items, from.value))
  {
    var from, to := LastPosition(items, active), LastPosition(items, over);
    if from.Some? && to.Some? {
      var rest := RemoveAt(items, from.value);
      var items' := InsertAt(rest, to.value, items[from.value]);
      RemoveAtSplits(items, from.value);
      assert RemoveAt(items', to.value) == rest;
      RemoveAtSplits(items', to.value);
    }
  }

  lemma DistinctByMultiset(items: seq<Item>, items': seq<Item>)
    requires UidsDistinct(items) && multiset(items) == multiset(items')
    ensures UidsDistinct(items')
    ensures forall uid :: Has(items', uid) <==> Has(items, uid)
  {
    assert forall x :: x in items <==> x in multiset(items);
    assert forall x :: x in items' <==> x in multiset(items');
    forall i | 0 <= i < |items'| ensures items'[i].uid.Some? {
      assert items'[i] in items;
    }
    forall i, j | 0 <= i < j < |items'| ensures items'[i].uid != items'[j].uid {
      assert items'[i] in items && items'[j] in items;
      if items'[i] == items'[j] {
        assert items' == items'[..i] + [items'[i]] + items'[i + 1..j] + [items'[j]] + items'[j + 1..];
        assert multiset(items)[items'[i]] >= 2;
        OccursOnce(items, items'[i]);
      }
    }
    forall uid ensures Has(items', uid) <==> Has(items, uid) {
      HasIff(items, uid);
      HasIff(items', uid);
      if i :| 0 <= i < |items| && items[i].uid == Some(uid) {
        assert items[i] in items';
      }
      if i :| 0 <= i < |items'| && items'[i].uid == Some(uid) {
        assert items'[i] in items;
      }
    }
  }

  lemma OccursOnce(items: seq<Item>, x: Item)
    requires UidsDistinct(items) && x in items
    ensures multiset(items)[x] == 1
  {
    var i :| 0 <= i < |items| && items[i] == x;
    assert items == items[..i] + [x] + items[i + 1..];
    assert x !in items[..i] && x !in items[i + 1..];
  }

  // ---- Runs -----------------------------------------------------------------------------------

  datatype Op =
    | Append(item: Item, written: bool)
    | Patch(current: Option<string>)
    | Reorder(active: string, over: string)
    | Delete(uid: string)
    | PatchItem(uid: string, patch: Item, saved: bool)
    | UpdateItem(uid: string, item: Item, written: bool, saved: bool)

  /** One operation; a failing one leaves the committed list as it was. */
  function Perform(p: Profiles, op: Op): Profiles {
    match op
    case Append(item, written) => var r := Appended(p, item, written); if r.Ok? then r.value else p
    case Patch(current) => Patched(p, current)
    case Reorder(a, b) => if p.items.None? then p else p.(items := Some(Reordered(p.items.value, a, b)))
    case Delete(uid) => var r := Deleted(p, uid); if r.Ok? then r.value.0 else p
    case PatchItem(uid, patch, saved) =>
      if PatchFailure(p, uid, patch, saved).Some? then p else Rewritten(p, uid, PatchOf(patch))
    case UpdateItem(uid, item, written, saved) =>
      if UpdateFailure(p, uid, item, written, saved).Some? then p else Rewritten(p, uid, RefreshOf(uid, item))
  }

  /**
   What a caller must check: a new uid is new, and a profile other than the current one does not own
   the current one through its options.
   */
  predicate Safe(p: Profiles, op: Op) {
    match op
    case Append(item, written) =>
      Appended(p, item, written).Ok? && item.uid.Some? ==> !Has(p.List(), item.uid.value)
    case Delete(uid) =>
      Has(p.List(), uid) && !DeletesCurrent(p, uid) ==> p.current !in Targets(p.List(), uid)
    case _ => true
  }

  lemma AppendKeepsValid(p: Profiles, item: Item, written: bool)
    requires Valid(p)
    ensures Valid(Perform(p, Append(item, written))) <==> Safe(p, Append(item, written))
  {
    if Appended(p, item, written).Ok? {
      var items, items' := p.List(), p.List() + [Stored(item)];
      HasIff(items, item.uid.value);
      forall uid ensures Has(items', uid) <==> Has(items, uid) || item.uid == Some(uid) {
        HasIff(items, uid);
        HasIff(items', uid);
        assert items'[|items|].uid == item.uid;
        assert forall i | 0 <= i < |items| :: items'[i] == items[i];
      }
      if i :| 0 <= i < |items| && items[i].uid == item.uid {
        assert items'[i].uid == items'[|items|].uid;
      }
    }
  }

  lemma {:induction false} FirstSelectableExists(items: seq<Item>)
    requires UidsDistinct(items)
    ensures var r := FirstSelectable(items); r.Some? ==> Has(items, r.value)
  {
    if items != [] && !CanBeCurrent(items[0]) {
      assert forall i | 0 <= i < |items[1..]| :: items[1..][i] == items[i + 1];
      FirstSelectableExists(items[1..]);
      if FirstSelectable(items[1..]).Some? {
        HasIff(items[1..], FirstSelectable(items[1..]).value);
        var i :| 0 <= i < |items[1..]| && items[1..][i].uid == FirstSelectable(items[1..]);
        assert items[i + 1].uid == FirstSelectable(items[1..]);
      }
    }
  }

  lemma DeleteKeepsValid(p: Profiles, uid: string)
    requires Valid(p)
    ensures Valid(Perform(p, Delete(uid))) <==> Safe(p, Delete(uid))
  {
    if Has(p.List(), uid) {
      var items, targets := p.List(), Targets(p.List(), uid);
      TakeAllKeeps(items, targets);
      WithoutIff(items, targets);
      var kept := Without(items, targets);
      FirstSelectableExists(kept);
      if p.current.Some? {
        HasIff(items, p.current.value);
        HasIff(kept, p.current.value);
        var i :| 0 <= i < |items| && items[i].uid == p.current;
        assert items[i] in kept <==> p.current !in targets;
        forall k | 0 <= k < |kept| && kept[k].uid == p.current ensures p.current !in targets {
          assert kept[k] in kept;
        }
      }
    }
  }

  lemma RewriteKeepsValid(p: Profiles, uid: string, f: Item -> Item)
    requires Valid(p) && forall x :: f(x).uid == x.uid
    ensures Valid(Rewritten(p, uid, f))
  {
    var p' := Rewritten(p, uid, f);
    assert |p'.List()| == |p.List()| && forall j | 0 <= j < |p.List()| :: p'.List()[j].uid == p.List()[j].uid;
    if p.current.Some? {
      HasIff(p.List(), p.current.value);
      HasIff(p'.List(), p.current.value);
    }
  }

  /** An operation keeps uids distinct and the current profile existing exactly when it is safe. */
  lemma StepKeepsValid(p: Profiles, op: Op)
    requires Valid(p)
    ensures Valid(Perform(p, op)) <==> Safe(p, op)
  {
    match op
    case Append(item, written) => AppendKeepsValid(p, item, written);
    case Delete(uid) => DeleteKeepsValid(p, uid);
    case Reorder(a, b) =>
      if p.items.Some? {
        ReorderMoves(p.items.value, a, b);
        DistinctByMultiset(p.items.value, Reordered(p.items.value, a, b));
      }
    case Patch(current) =>
    case PatchItem(uid, patch, _) => RewriteKeepsValid(p, uid, PatchOf(patch));
    case UpdateItem(uid, item, _, _) => RewriteKeepsValid(p, uid, RefreshOf(uid, item));
  }

  function PerformAll(p: Profiles, ops: seq<Op>): Profiles {
    if ops == [] then p else Perform(PerformAll(p, ops[..|ops| - 1]), ops[|ops| - 1])
  }

  /** Over any run of safe operations the list stays valid. */
  lemma {:induction false} RunKeepsValid(p: Profiles, ops: seq<Op>)
    requires Valid(p)
    requires forall i | 0 <= i < |ops| :: Safe(PerformAll(p, ops[..i]), ops[i])
    ensures Valid(PerformAll(p, ops))
  {
    if ops != [] {
      var n := |ops| - 1;
      assert forall i | 0 <= i < n :: ops[..n][..i] == ops[..i];
      RunKeepsValid(p, ops[..n]);
      StepKeepsValid(PerformAll(p, ops[..n]), ops[n]);
    }
  }

  /** An entry that owns the only other one takes it along. */
  lemma OwnedGoesToo(owner: Item, owned: Item, uid: string)
    requires owner.uid == Some(uid) && owned.uid != owner.uid
    requires owner.option.Some? && owner.option.value.merge.Some? && owner.option.value.merge == owned.uid
    ensures Has([owner, owned], uid) && TakeAll([owner, owned], Targets([owner, owned], uid)).0 == []
  {
    var items := [owner, owned];
    HasIff(items, uid);
    assert items[0].uid == Some(uid);
    var targets := Targets(items, uid);
    assert targets[0] == owner.uid && targets[1] == owned.uid;
    TakeAllKeeps(items, targets);
    WithoutStep(items, targets);
    assert items[1..] == [owned] && [owned][1..] == [];
    WithoutStep([owned], targets);
  }

  /** Deleting a profile whose options name the current one leaves `current` naming nothing. */
  lemma DanglingCurrent()
    ensures var option := PrfOption(Some("b"), None, None, None, None);
            var owner := Item(Some("a"), Some("remote"), None, Some(option), None, None);
            var owned := Item(Some("b"), Some("remote"), None, None, None, None);
            var p := Profiles(Some("b"), Some([owner, owned]));
            Valid(p) && Perform(p, Delete("a")) == Profiles(Some("b"), Some([])) && !Valid(Perform(p, Delete("a")))
  {
    var owner := Item(Some("a"), Some("remote"), None, Some(PrfOption(Some("b"), None, None, None, None)), None, None);
    var owned := Item(Some("b"), Some("remote"), None, None, None, None);
    var p := Profiles(Some("b"), Some([owner, owned]));
    assert owner.uid != owned.uid by { assert "a"[0] != "b"[0]; }
    HasIff(p.List(), "b");
    assert p.List()[1].uid == Some("b");
    OwnedGoesToo(owner, owned, "a");
    assert Position([], Some("b")).None?;
  }

  // ---- Which profile is current, and what an entry becomes ------------------------------------

  /** Only remote and local profiles are made current without being asked for. */
  predicate IsMain(item: Item) {
    item.itype == Some("remote") || item.itype == Some("local")
  }

  /** Appending, exactly: what it needs, the entry it adds, and when that becomes current. */
  lemma AppendedIs(p: Profiles, item: Item, written: bool)
    ensures var r := Appended(p, item, written);
      && (r.Ok? <==> item.uid.Some? && (item.fileData.Some? ==> item.file.Some? && written))
      && (item.uid.None? ==> r == Err(UidMissing))
      && (item.uid.Some? && item.fileData.Some? && item.file.None? ==> r == Err(FileMissing))
      && (r.Ok? ==>
            && |r.value.List()| == |p.List()| + 1 && r.value.List()[..|p.List()|] == p.List()
            && r.value.List()[|p.List()|] == item.(fileData := None)
            && (p.current.Some? || !IsMain(item) ==> r.value.current == p.current)
            && (p.current.None? && IsMain(item) ==> r.value.current == item.uid))
  {
  }

  /** Entry `i` is the first remote or local one. */
  predicate FirstMain(items: seq<Item>, i: nat) {
    i < |items| && IsMain(items[i]) && forall k | 0 <= k < i :: !IsMain(items[k])
  }

  lemma {:induction false} FirstSelectableAt(items: seq<Item>, i: nat)
    requires FirstMain(items, i)
    ensures FirstSelectable(items) == items[i].uid
  {
    if i > 0 {
      assert !IsMain(items[0]);
      assert forall k | 0 <= k < |items[1..]| :: items[1..][k] == items[k + 1];
      FirstSelectableAt(items[1..], i - 1);
    }
  }

  lemma {:induction false} NoneSelectable(items: seq<Item>)
    requires forall x <- items :: !IsMain(x)
    ensures FirstSelectable(items) == None
  {
    if items != [] {
      assert items[0] in items;
      NoneSelectable(items[1..]);
    }
  }

  /**
   After a deletion the current profile is still the one it was, unless that was the one deleted or there was none; then
   it is the first remote or local profile left, or none if none is left.
   */
  lemma CurrentAfterDelete(p: Profiles, uid: string)
    requires Deleted(p, uid).Ok?
    ensures var (p', _) := Deleted(p, uid).value;
      && (p.current.Some? && p.current.value != uid ==> p'.current == p.current)
      && (p.current.None? || p.current.value == uid ==>
            && ((forall x <- p'.List() :: !IsMain(x)) ==> p'.current == None)
            && forall i: nat | FirstMain(p'.List(), i) :: p'.current == p'.List()[i].uid)
  {
    var kept := Deleted(p, uid).value.0.List();
    if forall x <- kept :: !IsMain(x) {
      NoneSelectable(kept);
    }
    forall i: nat | FirstMain(kept, i) ensures FirstSelectable(kept) == kept[i].uid {
      FirstSelectableAt(kept, i);
    }
  }

  /** A field given anew wins over the old one; one not given stays. */
  predicate Overrides<A(==)>(before: Option<A>, given: Option<A>, after: Option<A>) {
    after == if given.Some? then given else before
  }

  /** What a patch makes of an entry, field by field. */
  lemma PatchedFields(x: Item, patch: Item)
    ensures var y := PatchedItem(x, patch);
      && y.uid == x.uid && y.fileData == x.fileData
      && Overrides(x.itype, patch.itype, y.itype) && Overrides(x.file, patch.file, y.file)
      && Overrides(x.selected, patch.selected, y.selected) && Overrides(x.option, patch.option, y.option)
  {
  }

  /** What a refresh makes of it: options field by field, and a file name only where there is data for it. */
  lemma RefreshedFields(x: Item, uid: string, item: Item)
    ensures var y := UpdatedItem(x, uid, item);
      && y.uid == x.uid && y.itype == x.itype && y.selected == x.selected && y.fileData == x.fileData
      && (x.file.Some? || item.fileData.None? ==> y.file == x.file)
      && (x.file.None? && item.fileData.Some? ==>
            y.file == if item.file.Some? then item.file else Some(uid + ".yaml"))
      && (y.option.Some? <==> x.option.Some? || item.option.Some?)
      && (y.option.Some? ==> MergesOptions(x.option, item.option, y.option.value))
  {
  }

  predicate MergesOptions(one: Option<PrfOption>, other: Option<PrfOption>, merged: PrfOption) {
    var none := PrfOption(None, None, None, None, None);
    var (a, b) := (if one.Some? then one.value else none, if other.Some? then other.value else none);
    && Overrides(a.merge, b.merge, merged.merge) && Overrides(a.script, b.script, merged.script)
    && Overrides(a.rules, b.rules, merged.rules) && Overrides(a.proxies, b.proxies, merged.proxies)
    && Overrides(a.groups, b.groups, merged.groups)
  }

  /** Rewriting an entry reaches the first with the uid and no other. */
  lemma RewrittenIs(p: Profiles, uid: string, f: Item -> Item)
    ensures var items, items' := p.List(), Rewritten(p, uid, f).List();
      && Rewritten(p, uid, f).current == p.current && |items'| == |items|
      && (forall i | 0 <= i < |items| ::
            items'[i] == if items[i].uid == Some(uid) && (forall k | 0 <= k < i :: items[k].uid != Some(uid))
                         then f(items[i]) else items[i])
  {
    var i := Position(p.List(), Some(uid));
    assert i.Some? ==> p.List()[i.value].uid == Some(uid);
  }

  lemma {:induction false} LastPositionIff(items: seq<Item>, uid: string)
    ensures LastPosition(items, uid).Some? <==> exists x <- items :: x.uid == Some(uid)
  {
    var i := LastPosition(items, uid);
    assert i.Some? ==> items[i.value] in items;
  }

  /** A reordering moves something, and so is saved, exactly if both profiles are in the list. */
  lemma MovesIff(items: seq<Item>, active: string, over: string)
    ensures Moves(items, active, over) <==>
            (exists x <- items :: x.uid == Some(active)) && (exists x <- items :: x.uid == Some(over))
  {
    LastPositionIff(items, active);
    LastPositionIff(items, over);
  }

  /** A deletion takes the profile itself and what the five links of its options name. */
  lemma TargetsIff(items: seq<Item>, uid: string, i: nat, t: Option<string>)
    requires i < |items| && items[i].uid == Some(uid) && forall k | 0 <= k < i :: items[k].uid != Some(uid)
    ensures Has(items, uid)
    ensures t in Targets(items, uid) <==>
            t == Some(uid) || (items[i].option.Some? &&
              var o := items[i].option.value; t in [o.merge, o.script, o.rules, o.proxies, o.groups])
  {
    assert Position(items, Some(uid)) == Some(i);
  }

  /** The name is a path of one normal component. */
  predicate NamesAFile(name: string) {
    name != "" && name != "." && name != ".." && forall c <- name :: c != '/' && c != '\\'
  }

  /** Why patching or refreshing an entry fails, in order. */
  lemma FailuresAre(p: Profiles, uid: string, item: Item, written: bool, saved: bool)
    ensures var known := exists x <- p.List() :: x.uid == Some(uid);
      && PatchFailure(p, uid, item, saved) ==
           (if item.file.Some? && !NamesAFile(item.file.value) then Some(BadFileName)
            else if !known then Some(NotFound) else if !saved then Some(WriteFailed) else None)
      && UpdateFailure(p, uid, item, written, saved) ==
           (if !known then Some(NotFound)
            else if (item.fileData.None? || written) && saved then None else Some(WriteFailed))
  {
    var i := Position(p.List(), Some(uid));
    assert i.Some? ==> p.List()[i.value] in p.List();
  }
}
