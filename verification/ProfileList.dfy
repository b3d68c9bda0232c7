/** The list of profiles: which one is current, and appending, reordering and deleting entries. */
module ProfileList {
  import opened Basics
  import opened Selection

  /** The entries a profile owns through its options, by uid. */
  datatype PrfOption = PrfOption(
    merge: Option<string>,
    script: Option<string>,
    rules: Option<string>,
    proxies: Option<string>,
    groups: Option<string>)

  datatype Item = Item(
    uid: Option<string>,
    itype: Option<string>,
    file: Option<string>,
    option: Option<PrfOption>,
    selected: Option<seq<Selected>>,
    fileData: Option<string>)

  datatype Profiles = Profiles(current: Option<string>, items: Option<seq<Item>>) {
    function List(): seq<Item> {
      items.GetOr([])
    }
  }

  datatype Error = UidMissing | FileMissing | WriteFailed | NotFound | BadFileName

  // ---- Positions ------------------------------------------------------------------------------

  /** First entry with exactly this uid; a missing uid is found by a missing target. */
  function Position(items: seq<Item>, target: Option<string>): (r: Option<nat>)
    ensures r.Some? ==> r.value < |items| && items[r.value].uid == target
    ensures r.Some? ==> forall k | 0 <= k < r.value :: items[k].uid != target
    ensures r.None? ==> forall k | 0 <= k < |items| :: items[k].uid != target
  {
    if items == [] then None
    else if items[0].uid == target then Some(0)
    else
      var r := Position(items[1..], target);
      assert forall k | 1 <= k < |items| :: items[k] == items[1..][k - 1];
      if r.Some? then Some(r.value + 1) else None
  }

  predicate Has(items: seq<Item>, uid: string) {
    Position(items, Some(uid)).Some?
  }

  /** Last entry with this uid. */
  function LastPosition(items: seq<Item>, uid: string): (r: Option<nat>)
    ensures r.Some? ==> r.value < |items| && items[r.value].uid == Some(uid)
    ensures r.Some? ==> forall k | r.value < k < |items| :: items[k].uid != Some(uid)
    ensures r.None? ==> forall k | 0 <= k < |items| :: items[k].uid != Some(uid)
  {
    if items == [] then None
    else if items[|items| - 1].uid == Some(uid) then Some(|items| - 1)
    else LastPosition(items[..|items| - 1], uid)
  }

  // ---- The operations on values ---------------------------------------------------------------

  /** `patch_config`: make an existing profile current; anything else leaves the choice alone. */
  function Patched(p: Profiles, current: Option<string>): Profiles {
    var items := p.List();
    Profiles(if current.Some? && Has(items, current.value) then current else p.current, Some(items))
  }

  predicate CanBeCurrent(item: Item) {
    item.itype == Some("remote") || item.itype == Some("local")
  }

  function Stored(item: Item): Item {
    item.(fileData := None)
  }

  /** `append_item`; `written` says whether writing the profile file succeeds. */
  function Appended(p: Profiles, item: Item, written: bool): Result<Profiles, Error> {
    if item.uid.None? then Err(UidMissing)
    else if item.fileData.Some? && item.file.None? then Err(FileMissing)
    else if item.fileData.Some? && !written then Err(WriteFailed)
    else Ok(Profiles(if p.current.None? && CanBeCurrent(item) then item.uid else p.current,
                     Some(p.List() + [Stored(item)])))
  }

  function RemoveAt<A>(s: seq<A>, i: nat): seq<A>
    requires i < |s|
  {
    s[..i] + s[i + 1..]
  }

  function InsertAt<A>(s: seq<A>, i: nat, x: A): seq<A>
    requires i <= |s|
  {
    s[..i] + [x] + s[i..]
  }

  /** Both entries exist, so that one is moved. */
  predicate Moves(items: seq<Item>, active: string, over: string) {
    LastPosition(items, active).Some? && LastPosition(items, over).Some?
  }

  /** `reorder`: move one entry to where another is. */
  function Reordered(items: seq<Item>, active: string, over: string): seq<Item> {
    var from, to := LastPosition(items, active), LastPosition(items, over);
    if from.None? || to.None? then items
    else InsertAt(RemoveAt(items, from.value), to.value, items[from.value])
  }

  function Links(option: Option<PrfOption>): seq<Option<string>> {
    if option.None? then []
    else var o := option.value; [o.merge, o.script, o.rules, o.proxies, o.groups]
  }

  /** Takes the first entry for each target in turn: the entries left, and the ones taken. */
  function TakeAll(items: seq<Item>, targets: seq<Option<string>>): (seq<Item>, seq<Item>) {
    if targets == [] then (items, [])
    else
      var (kept, taken) := TakeAll(items, targets[..|targets| - 1]);
      var i := Position(kept, targets[|targets| - 1]);
      if i.None? then (kept, taken) else (RemoveAt(kept, i.value), taken + [kept[i.value]])
  }

  function Files(taken: seq<Item>): seq<string> {
    if taken == [] then []
    else Files(taken[..|taken| - 1]) +
         if taken[|taken| - 1].file.Some? then [taken[|taken| - 1].file.value] else []
  }

  /** The uid of the first remote or local profile. */
  function FirstSelectable(items: seq<Item>): Option<string> {
    if items == [] then None else if CanBeCurrent(items[0]) then items[0].uid else FirstSelectable(items[1..])
  }

  /** What a deletion removes: the entry itself, then whatever its options name. */
  function Targets(items: seq<Item>, uid: string): seq<Option<string>>
    requires Has(items, uid)
  {
    [Some(uid)] + Links(items[Position(items, Some(uid)).value].option)
  }

  predicate DeletesCurrent(p: Profiles, uid: string) {
    p.current.None? || p.current == Some(uid)
  }

  /** `plan_delete_item`: the new list and the files to remove. */
  function Deleted(p: Profiles, uid: string): Result<(Profiles, seq<string>), Error> {
    if !Has(p.List(), uid) then Err(NotFound)
    else
      var (kept, taken) := TakeAll(p.List(), Targets(p.List(), uid));
      var current := if DeletesCurrent(p, uid) then FirstSelectable(kept) else p.current;
      Ok((Profiles(current, Some(kept)), Files(taken)))
  }

  function Or<A>(first: Option<A>, second: Option<A>): Option<A> {
    if first.Some? then first else second
  }

  /** A file name that is no path. */
  predicate IsFileName(file: string) {
    file != "" && file != "." && file != ".." && '/' !in file && '\\' !in file
  }

  /** `patch_item` on one entry: every field the patch carries. */
  function PatchedItem(x: Item, patch: Item): Item {
    x.(itype := Or(patch.itype, x.itype), file := Or(patch.file, x.file), selected := Or(patch.selected, x.selected),
       option := Or(patch.option, x.option))
  }

  function MergedOption(one: Option<PrfOption>, other: Option<PrfOption>): Option<PrfOption> {
    if one.None? then other
    else if other.None? then one
    else
      var (a, b) := (one.value, other.value);
      Some(PrfOption(Or(b.merge, a.merge), Or(b.script, a.script), Or(b.rules, a.rules), Or(b.proxies, a.proxies),
                     Or(b.groups, a.groups)))
  }

  /** `update_item` on one entry: options are merged, and new file data goes to its file or to a new one. */
  function UpdatedItem(x: Item, uid: string, item: Item): Item {
    x.(option := MergedOption(x.option, item.option),
       file := if item.fileData.None? then x.file else Some(x.file.GetOr(item.file.GetOr(uid + ".yaml"))))
  }

  /** The list with the first entry of this uid replaced by what `f` makes of it. */
  function Rewritten(p: Profiles, uid: string, f: Item -> Item): Profiles {
    var i := Position(p.List(), Some(uid));
    p.(items := Some(if i.None? then p.List() else p.List()[i.value := f(p.List()[i.value])]))
  }

  function PatchOf(patch: Item): Item -> Item {
    x => PatchedItem(x, patch)
  }

  function RefreshOf(uid: string, item: Item): Item -> Item {
    x => UpdatedItem(x, uid, item)
  }

  /** Why `patch_item` fails, if it does; `saved` says whether writing the list to its file succeeds. */
  function PatchFailure(p: Profiles, uid: string, patch: Item, saved: bool): Option<Error> {
    if patch.file.Some? && !IsFileName(patch.file.value) then Some(BadFileName)
    else if !Has(p.List(), uid) then Some(NotFound)
    else if !saved then Some(WriteFailed) else None
  }

  /** The same for `update_item`; `written` says whether writing the profile's own file succeeds. */
  function UpdateFailure(p: Profiles, uid: string, item: Item, written: bool, saved: bool): Option<Error> {
    if !Has(p.List(), uid) then Some(NotFound)
    else if (item.fileData.Some? && !written) || !saved then Some(WriteFailed) else None
  }

  // ---- The object -----------------------------------------------------------------------------

  class IProfiles {
    var current: Option<string>
    var items: Option<seq<Item>>

    function View(): Profiles
      reads this
    {
      Profiles(current, items)
    }

    constructor (p: Profiles)
      ensures View() == p
    {
      current := p.current;
      items := p.items;
    }

    method PatchConfig(patch: Profiles)
      modifies this
      ensures View() == Patched(old(View()), patch.current)
    {
      if items.None? {
        items := Some([]);
      }
      if patch.current.Some? {
        var i := 0;
        while i < |items.value|
          invariant i <= |items.value|
          invariant forall k | 0 <= k < i :: items.value[k].uid != patch.current
        {
          if items.value[i].uid == patch.current {
            current := patch.current;
            return;
          }
          i := i + 1;
        }
      }
    }

    /** On failure nothing has changed. */
    method AppendItem(item: Item, written: bool) returns (r: Result<(), Error>)
      modifies this
      ensures var spec := Appended(old(View()), item, written);
              if spec.Err? then r == Err(spec.error) && View() == old(View()) else r.Ok? && View() == spec.value
    {
      if item.uid.None? {
        return Err(UidMissing);
      }
      if item.fileData.Some? {
        if item.file.None? {
          return Err(FileMissing);
        }
        if !written {
          return Err(WriteFailed);
        }
      }
      if current.None? && (item.itype == Some("remote") || item.itype == Some("local")) {
        current := item.uid;
      }
      if items.None? {
        items := Some([]);
      }
      items := Some(items.value + [item.(fileData := None)]);
      r := Ok(());
    }

    method RPosition(uid: string) returns (r: Option<nat>)
      requires items.Some?
      ensures r == LastPosition(items.value, uid)
    {
      var i := |items.value|;
      while 0 < i
        invariant 0 <= i <= |items.value|
        invariant LastPosition(items.value, uid) == LastPosition(items.value[..i], uid)
      {
        assert items.value[..i][..i - 1] == items.value[..i - 1];
        if items.value[i - 1].uid == Some(uid) {
          return Some(i - 1);
        }
        i := i - 1;
      }
      r := None;
    }

    /** `saved` says whether writing the list to its file succeeds; it is written only after a move. */
    method Reorder(active: string, over: string, saved: bool) returns (r: Result<(), Error>)
      modifies this
      ensures current == old(current)
      ensures items == if old(items).None? then None else Some(Reordered(old(items.value), active, over))
      ensures r == if Moves(old(View()).List(), active, over) && !saved then Err(WriteFailed) else Ok(())
    {
      if items.None? {
        return Ok(());
      }
      var from := RPosition(active);
      var to := RPosition(over);
      if from.None? || to.None? {
        return Ok(());
      }
      var item := items.value[from.value];
      items := Some(items.value[..from.value] + items.value[from.value + 1..]);
      items := Some(items.value[..to.value] + [item] + items.value[to.value..]);
      r := if saved then Ok(()) else Err(WriteFailed);
    }

    /** A bad file name changes nothing; any other failure leaves the private copy as it then is. */
    method PatchItem(uid: string, patch: Item, saved: bool) returns (r: Result<(), Error>)
      modifies this
      ensures var failure := PatchFailure(old(View()), uid, patch, saved);
              && r == (if failure.Some? then Err(failure.value) else Ok(()))
              && View() == if failure == Some(BadFileName) then old(View())
                           else Rewritten(old(View()), uid, PatchOf(patch))
    {
      if patch.file.Some? && !IsFileName(patch.file.value) {
        return Err(BadFileName);
      }
      var list := items.GetOr([]);
      var i := 0;
      while i < |list|
        invariant i <= |list| && forall k | 0 <= k < i :: list[k].uid != Some(uid)
      {
        if list[i].uid == Some(uid) {
          assert Position(list, Some(uid)) == Some(i);
          items := Some(list[i := PatchedItem(list[i], patch)]);
          return if saved then Ok(()) else Err(WriteFailed);
        }
        i := i + 1;
      }
      items := Some(list);
      r := Err(NotFound);
    }

    method UpdateItem(uid: string, item: Item, written: bool, saved: bool) returns (r: Result<(), Error>)
      modifies this
      ensures var failure := UpdateFailure(old(View()), uid, item, written, saved);
              && r == (if failure.Some? then Err(failure.value) else Ok(()))
              && View() == Rewritten(old(View()), uid, RefreshOf(uid, item))
    {
      var list := items.GetOr([]);
      items := Some(list);
      if Position(list, Some(uid)).None? {
        return Err(NotFound);
      }
      var i := 0;
      while list[i].uid != Some(uid)
        invariant i <= Position(list, Some(uid)).value
        decreases |list| - i
      {
        i := i + 1;
      }
      assert Position(list, Some(uid)) == Some(i);
      var each := list[i];
      each := each.(option := MergedOption(each.option, item.option));
      if item.fileData.Some? {
        each := each.(file := Some(each.file.GetOr(item.file.GetOr(uid + ".yaml"))));
      }
      items := Some(list[i := each]);
      if item.fileData.Some? && !written {
        return Err(WriteFailed);
      }
      r := if saved then Ok(()) else Err(WriteFailed);
    }

    method PlanDeleteItem(uid: string) returns (r: Result<(bool, seq<string>), Error>)
      modifies this
      ensures var spec := Deleted(old(View()), uid);
              if spec.Err? then r == Err(spec.error) && View() == old(View())
              else r == Ok((old(DeletesCurrent(View(), uid)), spec.value.1)) && View() == spec.value.0
    {
      var deletingCurrent := current.None? || current.value == uid;
      var list := items.GetOr([]);
      var found := Position(list, Some(uid));
      if found.None? {
        return Err(NotFound);
      }
      var targets := [Some(uid)] + Links(list[found.value].option);
      var kept := list;
      var files: seq<string> := [];
      ghost var taken: seq<Item> := [];
      for i := 0 to |targets|
        invariant (kept, taken) == TakeAll(list, targets[..i]) && files == Files(taken)
      {
        assert targets[..i + 1][..i] == targets[..i];
        var index := Position(kept, targets[i]);
        if index.Some? {
          var item := kept[index.value];
          kept := kept[..index.value] + kept[index.value + 1..];
          taken := taken + [item];
          assert taken[..|taken| - 1] + [item] == taken;
          if item.file.Some? {
            files := files + [item.file.value];
          }
        }
      }
      assert targets[..|targets|] == targets;
      if deletingCurrent {
        current := None;
        var i := 0;
        while i < |kept|
          invariant i <= |kept| && current == None
          invariant FirstSelectable(kept) == FirstSelectable(kept[i..])
        {
          assert kept[i..][1..] == kept[i + 1..];
          if kept[i].itype == Some("remote") || kept[i].itype == Some("local") {
            current := kept[i].uid;
            break;
          }
          i := i + 1;
        }
      }
      items := Some(kept);
      r := Ok((deletingCurrent, files));
    }
  }
}
