/**
 Bindings to one of several equal-looking members of a proxy group, from src/types/proxy-view.ts: a binding
 keeps what the member looks like and how many such members come before it.
 */
module Occurrence {
  import opened Basics

  datatype Source = Core(proxyName: string) | Provider(providerName: string, proxyName: string)

  datatype Node = Node(recordId: string, name: string, source: Source)

  datatype Member =
    | GroupMember(name: string)
    | NodeMember(name: string, node: Node)
    | Unresolved(name: string, reason: string)

  datatype Binding =
    | GroupBinding(name: string, occurrence: nat)
    | NodeBinding(name: string, source: Source, occurrence: nat)

  datatype Found = Found(memberIndex: nat, member: Member)

  predicate IsInteractable(member: Member) {
    !member.Unresolved?
  }

  predicate SameSource(left: Source, right: Source)
    ensures SameSource(left, right) <==> left == right
  {
    && left.Core? == right.Core?
    && left.proxyName == right.proxyName
    && (left.Core? || (right.Provider? && left.providerName == right.providerName))
  }

  predicate Matches(member: Member, binding: Binding) {
    match member
    case GroupMember(name) => binding.GroupBinding? && name == binding.name
    case NodeMember(name, node) =>
      binding.NodeBinding? && name == binding.name && SameSource(node.source, binding.source)
    case Unresolved(_, _) => false
  }

  function BindingTo(member: Member, occurrence: nat): Binding
    requires IsInteractable(member)
  {
    if member.NodeMember? then NodeBinding(member.name, member.node.source, occurrence)
    else GroupBinding(member.name, occurrence)
  }

  /** How many members the binding describes, whichever occurrence it asks for. */
  function Count(members: seq<Member>, binding: Binding): nat {
    if members == [] then 0
    else Count(members[..|members| - 1], binding) + if Matches(members[|members| - 1], binding) then 1 else 0
  }

  /** Index i holds the occurrence that the binding asks for. */
  predicate IsBound(members: seq<Member>, binding: Binding, i: nat) {
    i < |members| && Matches(members[i], binding) && Count(members[..i], binding) == binding.occurrence
  }

  /** The binding of the member at an index, if that is a member one can interact with. */
  method ToMemberOccurrenceBinding(members: seq<Member>, memberIndex: int) returns (bound: Option<Binding>)
    ensures bound.Some? <==> 0 <= memberIndex < |members| && IsInteractable(members[memberIndex])
    ensures bound.Some? ==> IsBound(members, bound.value, memberIndex)
  {
    if !(0 <= memberIndex < |members|) || !IsInteractable(members[memberIndex]) {
      return None;
    }
    var member := members[memberIndex];
    var binding := if member.NodeMember? then NodeBinding(member.name, member.node.source, 0)
                   else GroupBinding(member.name, 0);
    var index := 0;
    while index < memberIndex
      invariant 0 <= index <= memberIndex
      invariant binding == BindingTo(member, Count(members[..index], BindingTo(member, 0)))
    {
      CountIgnoresOccurrence(members[..index], binding, BindingTo(member, 0));
      assert members[..index + 1][..index] == members[..index];
      if Matches(members[index], binding) {
        binding := binding.(occurrence := binding.occurrence + 1);
      }
      index := index + 1;
    }
    CountIgnoresOccurrence(members[..memberIndex], binding, BindingTo(member, 0));
    return Some(binding);
  }

  /** Finds the occurrence that a binding asks for, if there are that many. */
  method RebindMemberOccurrence(members: seq<Member>, binding: Binding) returns (found: Option<Found>)
    ensures found.Some? ==> IsBound(members, binding, found.value.memberIndex)
                            && found.value.member == members[found.value.memberIndex]
    ensures found.None? ==> Count(members, binding) <= binding.occurrence
  {
    var occurrence := 0;
    var memberIndex := 0;
    while memberIndex < |members|
      invariant memberIndex <= |members|
      invariant occurrence == Count(members[..memberIndex], binding) <= binding.occurrence
    {
      var member := members[memberIndex];
      assert members[..memberIndex + 1][..memberIndex] == members[..memberIndex];
      if IsInteractable(member) && Matches(member, binding) {
        if occurrence == binding.occurrence {
          return Some(Found(memberIndex, member));
        }
        occurrence := occurrence + 1;
      }
      memberIndex := memberIndex + 1;
    }
    assert members[..|members|] == members;
    return None;
  }

  // ---- Laws -----------------------------------------------------------------------------------

  /** Two bindings that differ only in the occurrence. */
  predicate SameTarget(a: Binding, b: Binding) {
    a == b.(occurrence := a.occurrence)
  }

  lemma {:induction false} CountIgnoresOccurrence(members: seq<Member>, a: Binding, b: Binding)
    requires SameTarget(a, b)
    ensures Count(members, a) == Count(members, b)
  {
    if members != [] {
      CountIgnoresOccurrence(members[..|members| - 1], a, b);
    }
  }

  lemma {:induction false} CountSplits(a: seq<Member>, b: seq<Member>, binding: Binding)
    ensures Count(a + b, binding) == Count(a, binding) + Count(b, binding)
  {
    if b == [] {
      assert a + b == a;
    } else {
      assert (a + b)[..|a + b| - 1] == a + b[..|b| - 1];
      CountSplits(a, b[..|b| - 1], binding);
    }
  }

  lemma {:induction false} CountPasses(members: seq<Member>, binding: Binding, i: nat, j: nat)
    requires i < j <= |members| && Matches(members[i], binding)
    ensures Count(members[..i], binding) < Count(members[..j], binding)
  {
    assert members[..j][..j - 1] == members[..j - 1];
    if i < j - 1 {
      CountPasses(members, binding, i, j - 1);
    }
  }

  /** At most one index holds the occurrence. */
  lemma BoundIsUnique(members: seq<Member>, binding: Binding, i: nat, j: nat)
    requires IsBound(members, binding, i) && IsBound(members, binding, j)
    ensures i == j
  {
    if i < j {
      CountPasses(members, binding, i, j);
    } else if j < i {
      CountPasses(members, binding, j, i);
    }
  }

  /** An index holds the occurrence exactly when there are that many members. */
  lemma {:induction false} BoundExistsIff(members: seq<Member>, binding: Binding)
    ensures (exists i: nat :: IsBound(members, binding, i)) <==> binding.occurrence < Count(members, binding)
  {
    if members != [] {
      var n := |members| - 1;
      BoundExistsIff(members[..n], binding);
      if exists i: nat :: IsBound(members[..n], binding, i) {
        var i: nat :| IsBound(members[..n], binding, i);
        assert members[..n][..i] == members[..i];
        assert IsBound(members, binding, i);
      } else if IsBound(members, binding, n) {
      } else {
        forall i: nat | IsBound(members, binding, i) ensures false {
          if i < n {
            assert members[..n][..i] == members[..i];
            assert IsBound(members[..n], binding, i);
          }
        }
      }
    }
  }

  /** Rebinding the binding of an index gives back that index. */
  method RoundTripFromIndex(members: seq<Member>, memberIndex: nat) returns (found: Option<Found>)
    requires memberIndex < |members| && IsInteractable(members[memberIndex])
    ensures found == Some(Found(memberIndex, members[memberIndex]))
  {
    var bound := ToMemberOccurrenceBinding(members, memberIndex);
    found := RebindMemberOccurrence(members, bound.value);
    BoundExistsIff(members, bound.value);
    if found.Some? {
      BoundIsUnique(members, bound.value, memberIndex, found.value.memberIndex);
    }
  }

  /** Binding the index that a binding led to gives back that binding, exactly when there is such an index. */
  method RoundTripFromBinding(members: seq<Member>, binding: Binding) returns (bound: Option<Binding>)
    ensures bound == if binding.occurrence < Count(members, binding) then Some(binding) else None
  {
    var found := RebindMemberOccurrence(members, binding);
    BoundExistsIff(members, binding);
    if found.None? {
      return None;
    }
    bound := ToMemberOccurrenceBinding(members, found.value.memberIndex);
    BindingIsDetermined(members, binding, bound.value, found.value.memberIndex);
  }

  lemma BindingIsDetermined(members: seq<Member>, a: Binding, b: Binding, i: nat)
    requires IsBound(members, a, i) && IsBound(members, b, i)
    ensures a == b
  {
    assert SameTarget(a, b);
    CountIgnoresOccurrence(members[..i], a, b);
  }

  lemma CountAround(front: seq<Member>, middle: seq<Member>, back: seq<Member>, binding: Binding, i: nat)
    requires |front| <= i <= |front| + |back|
    ensures Count((front + middle + back)[..i + |middle|], binding)
         == Count((front + back)[..i], binding) + Count(middle, binding)
  {
    var k := i - |front|;
    assert (front + back)[..i] == front + back[..k];
    assert (front + middle + back)[..i + |middle|] == (front + middle) + back[..k];
    CountSplits(front, back[..k], binding);
    CountSplits(front + middle, back[..k], binding);
    CountSplits(front, middle, binding);
  }

  /**
   Where a list gains members in the middle, the binding still leads to the same member at its shifted index exactly
   when none of them matches, or all come behind that member ...
   */
  lemma StableIff(front: seq<Member>, added: seq<Member>, back: seq<Member>, binding: Binding, i: nat)
    requires IsBound(front + back, binding, i)
    ensures IsBound(front + added + back, binding, if i < |front| then i else i + |added|)
       <==> i < |front| || Count(added, binding) == 0
  {
    var all := front + added + back;
    if i < |front| {
      assert all[..i] == front[..i] == (front + back)[..i];
      assert all[i] == (front + back)[i];
    } else {
      assert all[i + |added|] == (front + back)[i];
      CountAround(front, added, back, binding, i);
    }
  }

  /** ... and so it does where the list loses other members in the middle. */
  lemma StableUnderRemovalIff(front: seq<Member>, gone: seq<Member>, back: seq<Member>, binding: Binding, i: nat)
    requires IsBound(front + gone + back, binding, i) && !(|front| <= i < |front| + |gone|)
    ensures IsBound(front + back, binding, if i < |front| then i else i - |gone|)
       <==> i < |front| || Count(gone, binding) == 0
  {
    var all := front + gone + back;
    if i < |front| {
      assert all[..i] == front[..i] == (front + back)[..i];
      assert all[i] == (front + back)[i];
    } else {
      assert all[i] == (front + back)[i - |gone|];
      CountAround(front, gone, back, binding, i - |gone|);
    }
  }
}
