/**
 Where the committed value of a draft layer comes from: which edits and updates of a run are in it, in which order,
 and exactly which updates a committed draft overwrites.
 */
module DraftLineage {
  import opened Basics
  import opened DraftStore
  import opened DraftProtocol
  import opened DraftRuns

  /** What one step does to the two values of a layer. */
  datatype Change<!T> =
    | Edited(edit: T -> T)
    | Committed
    | Dropped
    | Updated(update: T -> Option<T>)
    | Nothing

  function Changed<T>(l: Layer<T>, c: Change<T>): Layer<T> {
    match c
    case Edited(f) => l.Edit(f)
    case Committed => l.Apply()
    case Dropped => l.Discard()
    case Updated(f) => l.Update(f)
    case Nothing => l
  }

  /** The layer after the first `n` changes, starting from a committed value and no draft. */
  function Outcome<T>(v: T, changes: seq<Change<T>>, n: nat): Layer<T>
    requires n <= |changes|
  {
    if n == 0 then Layer(v, None) else Changed(Outcome(v, changes, n - 1), changes[n - 1])
  }

  // ---- The trail of a value -------------------------------------------------------------------

  /** The change, as it acts on a trail: the edit or update number `n` is added at the end. */
  function Marked<T>(c: Change<T>, n: nat): Change<seq<nat>> {
    match c
    case Edited(_) => Edited((trail: seq<nat>) => trail + [n])
    case Updated(_) => Updated((trail: seq<nat>) => Some(trail + [n]))
    case Committed => Committed
    case Dropped => Dropped
    case Nothing => Nothing
  }

  /** The numbers of the changes that each of the two values has come through. */
  function Trail<T>(changes: seq<Change<T>>, n: nat): Layer<seq<nat>>
    requires n <= |changes|
  {
    if n == 0 then Layer([], None) else Changed(Trail(changes, n - 1), Marked(changes[n - 1], n - 1))
  }

  function Effect<T>(c: Change<T>, x: T): T {
    match c
    case Edited(f) => f(x)
    case Updated(f) => f(x).GetOr(x)
    case _ => x
  }

  ghost predicate Within(trail: seq<nat>, n: nat) {
    forall i | 0 <= i < |trail| :: trail[i] < n
  }

  function Replay<T>(v: T, changes: seq<Change<T>>, trail: seq<nat>): T
    requires Within(trail, |changes|)
  {
    if trail == [] then v
    else
      var n := |trail| - 1;
      Effect(changes[trail[n]], Replay(v, changes, trail[..n]))
  }

  lemma ReplayAppend<T>(v: T, changes: seq<Change<T>>, trail: seq<nat>, k: nat)
    requires Within(trail, |changes|) && k < |changes|
    ensures Within(trail + [k], |changes|)
    ensures Replay(v, changes, trail + [k]) == Effect(changes[k], Replay(v, changes, trail))
  {
    assert (trail + [k])[..|trail + [k]| - 1] == trail;
  }

  ghost predicate TrailWithin(trail: Layer<seq<nat>>, n: nat) {
    Within(trail.committed, n) && (trail.draft.Some? ==> Within(trail.draft.value, n))
  }

  /** Both values are what replaying their trails gives. */
  ghost predicate Replayed<T>(l: Layer<T>, v: T, changes: seq<Change<T>>, trail: Layer<seq<nat>>)
    requires TrailWithin(trail, |changes|)
  {
    && l.committed == Replay(v, changes, trail.committed)
    && l.draft == if trail.draft.None? then None else Some(Replay(v, changes, trail.draft.value))
  }

  /** One more change acts on the values as it does on the trails. */
  lemma ChangedReplayed<T>(v: T, changes: seq<Change<T>>, n: nat,
                           l: Layer<T>, trail: Layer<seq<nat>>, next: Layer<T>, longer: Layer<seq<nat>>)
    requires n < |changes| && TrailWithin(trail, n)
    requires TrailWithin(trail, |changes|) && Replayed(l, v, changes, trail)
    requires next == Changed(l, changes[n]) && longer == Changed(trail, Marked(changes[n], n))
    ensures TrailWithin(longer, n + 1) && TrailWithin(longer, |changes|)
    ensures Replayed(next, v, changes, longer)
  {
    match changes[n]
    case Edited(_) => ReplayAppend(v, changes, trail.draft.GetOr(trail.committed), n);
    case Updated(_) => ReplayAppend(v, changes, trail.committed, n);
    case _ =>
  }

  /** The committed value and the draft are exactly the replay of the changes on their trails. */
  lemma {:induction false} ValueIsReplay<T>(v: T, changes: seq<Change<T>>, n: nat)
    requires n <= |changes|
    ensures TrailWithin(Trail(changes, n), n) && TrailWithin(Trail(changes, n), |changes|)
    ensures Replayed(Outcome(v, changes, n), v, changes, Trail(changes, n))
  {
    if n > 0 {
      ValueIsReplay(v, changes, n - 1);
      ChangedReplayed(v, changes, n - 1, Outcome(v, changes, n - 1), Trail(changes, n - 1),
                      Outcome(v, changes, n), Trail(changes, n));
    }
  }

  // ---- The staging of a draft -----------------------------------------------------------------

  /** After the first `n` changes there is a draft. */
  predicate HasDraft<T>(changes: seq<Change<T>>, n: nat)
    requires n <= |changes|
  {
    n > 0 &&
      match changes[n - 1]
      case Edited(_) => true
      case Committed => false
      case Dropped => false
      case _ => HasDraft(changes, n - 1)
  }

  /** The edit that made the draft. */
  function Staged<T>(changes: seq<Change<T>>, n: nat): (s: nat)
    requires n <= |changes| && HasDraft(changes, n)
    ensures s < n && changes[s].Edited? && !HasDraft(changes, s)
  {
    if HasDraft(changes, n - 1) then Staged(changes, n - 1) else n - 1
  }

  /** The change commits a draft. */
  predicate Commits<T>(changes: seq<Change<T>>, i: nat)
    requires i < |changes|
  {
    changes[i].Committed? && HasDraft(changes, i)
  }

  /** The edits from one change up to another, one after the other. */
  function Edits<T>(v: T, changes: seq<Change<T>>, first: nat, n: nat): T
    requires first <= n <= |changes|
    decreases n
  {
    if first == n then v
    else
      var x := Edits(v, changes, first, n - 1);
      if changes[n - 1].Edited? then changes[n - 1].edit(x) else x
  }

  lemma {:induction false} SameShape<T>(v: T, changes: seq<Change<T>>, n: nat)
    requires n <= |changes|
    ensures HasDraft(changes, n) <==> Outcome(v, changes, n).draft.Some?
  {
    if n > 0 {
      SameShape(v, changes, n - 1);
    }
  }

  /** A draft is the edits made since it was staged, over the value committed when it was staged. */
  lemma {:induction false} DraftIsEdits<T>(v: T, changes: seq<Change<T>>, n: nat)
    requires n <= |changes| && HasDraft(changes, n)
    ensures var s := Staged(changes, n);
            Outcome(v, changes, n).draft == Some(Edits(Outcome(v, changes, s).committed, changes, s, n))
  {
    SameShape(v, changes, n - 1);
    if HasDraft(changes, n - 1) {
      DraftIsEdits(v, changes, n - 1);
    }
  }

  /** Since the draft was staged nothing was committed over it or dropped. */
  lemma {:induction false} NoCommitSinceStaged<T>(changes: seq<Change<T>>, n: nat, i: nat)
    requires n <= |changes| && HasDraft(changes, n) && Staged(changes, n) <= i < n
    ensures !Commits(changes, i)
  {
    if i < n - 1 {
      NoCommitSinceStaged(changes, n - 1, i);
    }
  }

  // ---- The fate of a change -------------------------------------------------------------------

  /** Change `k` as it acts on the question whether a value has come through it. */
  function Traced<T>(c: Change<T>, here: bool): Change<bool> {
    match c
    case Edited(_) => Edited((through: bool) => through || here)
    case Updated(_) => Updated((through: bool) => Some(through || here))
    case Committed => Committed
    case Dropped => Dropped
    case Nothing => Nothing
  }

  /** Whether the two values have come through change `k`. */
  function Fate<T>(changes: seq<Change<T>>, n: nat, k: nat): Layer<bool>
    requires n <= |changes|
  {
    if n == 0 then Layer(false, None) else Changed(Fate(changes, n - 1, k), Traced(changes[n - 1], n - 1 == k))
  }

  /** A fate tells whether `k` is on a trail. */
  predicate Tells(fate: Layer<bool>, trail: Layer<seq<nat>>, k: nat) {
    && (fate.committed <==> k in trail.committed)
    && (fate.draft.Some? <==> trail.draft.Some?)
    && (fate.draft.Some? ==> (fate.draft.value <==> k in trail.draft.value))
  }

  lemma ChangedTells<T>(fate: Layer<bool>, trail: Layer<seq<nat>>, k: nat, c: Change<T>, n: nat)
    requires Tells(fate, trail, k)
    ensures Tells(Changed(fate, Traced(c, n == k)), Changed(trail, Marked(c, n)), k)
  {
  }

  /** That is whether it is on their trails. */
  lemma {:induction false} FateIsOnTrail<T>(changes: seq<Change<T>>, n: nat, k: nat)
    requires n <= |changes|
    ensures Tells(Fate(changes, n, k), Trail(changes, n), k)
  {
    if n > 0 {
      FateIsOnTrail(changes, n - 1, k);
      ChangedTells(Fate(changes, n - 1, k), Trail(changes, n - 1), k, changes[n - 1], n - 1);
    }
  }

  lemma {:induction false} FateShape<T>(changes: seq<Change<T>>, n: nat, k: nat)
    requires n <= |changes|
    ensures Fate(changes, n, k).draft.Some? <==> HasDraft(changes, n)
    ensures n <= k ==> !Fate(changes, n, k).committed
    ensures n <= k && HasDraft(changes, n) ==> !Fate(changes, n, k).draft.value
  {
    if n > 0 {
      FateShape(changes, n - 1, k);
    }
  }

  /** A draft has come through what the value under it had when it was staged, and through every edit since. */
  lemma {:induction false} DraftFate<T>(changes: seq<Change<T>>, n: nat, k: nat)
    requires k < n <= |changes| && HasDraft(changes, n)
    ensures Fate(changes, n, k).draft.Some?
    ensures Fate(changes, n, k).draft.value <==>
            Fate(changes, Staged(changes, n), k).committed || (changes[k].Edited? && Staged(changes, n) <= k)
  {
    FateShape(changes, n - 1, k);
    FateShape(changes, Staged(changes, n), k);
    if HasDraft(changes, n - 1) && k < n - 1 {
      DraftFate(changes, n - 1, k);
    }
  }

  /** Change `k` is in the committed value after `n` changes. */
  ghost predicate Survives<T>(changes: seq<Change<T>>, n: nat, k: nat)
    requires n <= |changes|
  {
    Fate(changes, n, k).committed
  }

  /** Of the first `n` changes, one after `k` commits a draft staged no later than it. */
  ghost predicate Caught<T>(changes: seq<Change<T>>, n: nat, k: nat)
    requires n <= |changes|
  {
    exists i {:trigger Commits(changes, i)} :: k < i < n && Commits(changes, i) && Staged(changes, i) <= k
  }

  /** Committing the draft at `n` keeps what was committed when it was staged, and every edit since. */
  lemma CommitFate<T>(changes: seq<Change<T>>, n: nat, k: nat)
    requires n < |changes| && Commits(changes, n) && k < n
    ensures Survives(changes, n + 1, k) <==>
            Survives(changes, Staged(changes, n), k) || (changes[k].Edited? && Staged(changes, n) <= k)
  {
    DraftFate(changes, n, k);
  }

  /** What catches `k` before the commit at `n` did so before the draft committed there was staged. */
  lemma CaughtEarlier<T>(changes: seq<Change<T>>, n: nat, k: nat, i: nat)
    requires n < |changes| && Commits(changes, n) && k < Staged(changes, n)
    requires k < i <= n && Commits(changes, i) && Staged(changes, i) <= k
    ensures i < Staged(changes, n)
  {
    if Staged(changes, n) <= i < n {
      NoCommitSinceStaged(changes, n, i);
    }
  }

  /** Between the staging of a draft and its commit nothing else is committed. */
  lemma CommitCatches<T>(changes: seq<Change<T>>, n: nat, k: nat)
    requires n < |changes| && Commits(changes, n) && k < n
    ensures Caught(changes, n + 1, k) <==> Staged(changes, n) <= k || Caught(changes, Staged(changes, n), k)
  {
    var s := Staged(changes, n);
    if k < s {
      forall i {:trigger Commits(changes, i)} | k < i <= n && Commits(changes, i) && Staged(changes, i) <= k
        ensures i < s
      {
        CaughtEarlier(changes, n, k, i);
      }
    }
  }

  lemma OtherFate<T>(changes: seq<Change<T>>, n: nat, k: nat)
    requires n < |changes| && !Commits(changes, n) && k < n
    ensures Survives(changes, n + 1, k) <==> Survives(changes, n, k)
    ensures Caught(changes, n + 1, k) <==> Caught(changes, n, k)
  {
    FateShape(changes, n, k);
  }

  lemma FirstFate<T>(changes: seq<Change<T>>, k: nat)
    requires k < |changes|
    ensures Survives(changes, k + 1, k) <==> changes[k].Updated?
    ensures !Caught(changes, k + 1, k)
  {
    FateShape(changes, k, k);
  }

  /**
   Falling between the staging of a draft and its commit decides it: an update is in the committed value after `n`
   changes exactly unless it fell there, and an edit exactly if it did.
   */
  lemma {:induction false} SurvivesIff<T>(changes: seq<Change<T>>, n: nat, k: nat)
    requires k < n <= |changes|
    ensures changes[k].Updated? ==> (Survives(changes, n, k) <==> !Caught(changes, n, k))
    ensures changes[k].Edited? ==> (Survives(changes, n, k) <==> Caught(changes, n, k))
    decreases n
  {
    if k == n - 1 {
      FirstFate(changes, k);
    } else if Commits(changes, n - 1) {
      var s := Staged(changes, n - 1);
      CommitFate(changes, n - 1, k);
      CommitCatches(changes, n - 1, k);
      FateShape(changes, s, k);
      if k < s {
        SurvivesIff(changes, s, k);
      }
    } else {
      OtherFate(changes, n - 1, k);
      SurvivesIff(changes, n - 1, k);
    }
  }

  // ---- Runs of the protocol -------------------------------------------------------------------

  /** What a step of the protocol does to the values: a task step shows only where it writes. */
  ghost function ChangeOf<T>(s: State<T>, act: Action<T>): Change<T> {
    match act
    case Edit(f, _) => Edited(f)
    case Apply => Committed
    case Discard => Dropped
    case Run(t, _) => if Writes(s, t) then Updated(s.tasks[t].f) else Nothing
    case _ => Nothing
  }

  ghost function Changes<T>(trace: seq<State<T>>, acts: seq<Action<T>>): (changes: seq<Change<T>>)
    requires |trace| == |acts| + 1
    ensures |changes| == |acts|
    ensures forall k | 0 <= k < |acts| :: changes[k] == ChangeOf(trace[k], acts[k])
  {
    if acts == [] then []
    else Changes(trace[..|acts|], acts[..|acts| - 1]) + [ChangeOf(trace[|acts| - 1], acts[|acts| - 1])]
  }

  lemma ChangeIsStep<T>(s: State<T>, act: Action<T>)
    requires Inv(s) && Enabled(s, act)
    ensures AbsNext(s, act) == Changed(Abs(s.store), ChangeOf(s, act))
  {
  }

  lemma RunStepOutcome<T>(trace: seq<State<T>>, acts: seq<Action<T>>, n: nat)
    requires IsRun(trace, acts) && n < |acts|
    ensures Inv(trace[n]) && Inv(trace[n + 1])
    ensures Abs(trace[n + 1].store) == Changed(Abs(trace[n].store), Changes(trace, acts)[n])
  {
    RunKeepsInv(trace, acts, n);
    StepRefines(trace[n], acts[n]);
    ChangeIsStep(trace[n], acts[n]);
  }

  /** The layer of a run is what its changes make of the initial value. */
  lemma {:induction false} RunOutcome<T>(trace: seq<State<T>>, acts: seq<Action<T>>, n: nat)
    requires IsRun(trace, acts) && n <= |acts|
    ensures Inv(trace[n])
    ensures Abs(trace[n].store) == Outcome(trace[0].store.Committed(), Changes(trace, acts), n)
  {
    if n == 0 {
      RunReachesInv(trace, acts, 0);
    } else {
      RunOutcome(trace, acts, n - 1);
      RunStepOutcome(trace, acts, n - 1);
    }
  }

  lemma DraftInRun<T>(trace: seq<State<T>>, acts: seq<Action<T>>, n: nat)
    requires IsRun(trace, acts) && n <= |acts|
    ensures HasDraft(Changes(trace, acts), n) <==> trace[n].store.draft.Some?
  {
    RunOutcome(trace, acts, n);
    SameShape(trace[0].store.Committed(), Changes(trace, acts), n);
  }

  /** The step that staged the draft which is there in state `n`. */
  ghost function StagedAt<T>(trace: seq<State<T>>, acts: seq<Action<T>>, n: nat): (s: nat)
    requires IsRun(trace, acts) && n <= |acts| && trace[n].store.draft.Some?
    ensures s < n && acts[s].Edit?
  {
    DraftInRun(trace, acts, n);
    Staged(Changes(trace, acts), n)
  }

  /**
   Every commit of a draft, in every interleaving: the value committed is the edits made since the draft was
   staged, one after the other, over the value that was committed when it was staged.
   */
  lemma ApplyCommitsEdits<T>(trace: seq<State<T>>, acts: seq<Action<T>>, i: nat) returns (s: nat)
    requires IsRun(trace, acts) && i < |acts| && CommitsDraft(trace[i], acts[i])
    ensures s == StagedAt(trace, acts, i) && Inv(trace[s]) && Inv(trace[i + 1])
    ensures trace[s].store.draft.None?
    ensures trace[i + 1].store.Committed() == Edits(trace[s].store.Committed(), Changes(trace, acts), s, i)
  {
    var changes, v := Changes(trace, acts), trace[0].store.Committed();
    s := StagedAt(trace, acts, i);
    DraftInRun(trace, acts, i);
    DraftIsEdits(v, changes, i);
    RunOutcome(trace, acts, s);
    DraftInRun(trace, acts, s);
    RunOutcome(trace, acts, i);
    RunStepOutcome(trace, acts, i);
  }

  /** The steps whose edits and updates make up the value committed in state `n`, in order. */
  ghost function TrailAt<T>(trace: seq<State<T>>, acts: seq<Action<T>>, n: nat): seq<nat>
    requires |trace| == |acts| + 1 && n <= |acts|
  {
    Trail(Changes(trace, acts), n).committed
  }

  /** The committed value of every reachable state is the replay of exactly the edits and updates on its trail. */
  lemma CommittedIsTrail<T>(trace: seq<State<T>>, acts: seq<Action<T>>, n: nat)
    requires IsRun(trace, acts) && n <= |acts|
    ensures Inv(trace[n]) && Within(TrailAt(trace, acts, n), |acts|)
    ensures trace[n].store.Committed()
         == Replay(trace[0].store.Committed(), Changes(trace, acts), TrailAt(trace, acts, n))
  {
    RunOutcome(trace, acts, n);
    ValueIsReplay(trace[0].store.Committed(), Changes(trace, acts), n);
  }

  /** Step `k` fell between the staging of the draft that step `i` commits, or was that staging, and the commit. */
  ghost predicate CaughtBetween<T>(trace: seq<State<T>>, acts: seq<Action<T>>, k: nat, i: nat)
    requires IsRun(trace, acts) && i < |acts|
  {
    k < i && CommitsDraft(trace[i], acts[i]) && StagedAt(trace, acts, i) <= k
  }

  lemma CaughtIff<T>(trace: seq<State<T>>, acts: seq<Action<T>>, k: nat, i: nat)
    requires IsRun(trace, acts) && i < |acts|
    ensures CaughtBetween(trace, acts, k, i) <==>
            k < i && Commits(Changes(trace, acts), i) && Staged(Changes(trace, acts), i) <= k
  {
    DraftInRun(trace, acts, i);
  }

  lemma CaughtSomewhereIff<T>(trace: seq<State<T>>, acts: seq<Action<T>>, n: nat, k: nat)
    requires IsRun(trace, acts) && n <= |acts|
    ensures Caught(Changes(trace, acts), n, k) <==> exists i :: k < i < n && CaughtBetween(trace, acts, k, i)
  {
    var changes := Changes(trace, acts);
    if Caught(changes, n, k) {
      var i :| k < i < n && Commits(changes, i) && Staged(changes, i) <= k;
      CaughtIff(trace, acts, k, i);
    }
    if i :| k < i < n && CaughtBetween(trace, acts, k, i) {
      CaughtIff(trace, acts, k, i);
    }
  }

  /**
   The fate of a step between a draft's staging and its commit. A written update is lost by a later state exactly
   if it fell there ...
   */
  lemma UpdateLostIff<T>(trace: seq<State<T>>, acts: seq<Action<T>>, n: nat, k: nat)
    requires IsRun(trace, acts) && k < n <= |acts| && acts[k].Run? && Writes(trace[k], acts[k].t)
    ensures k !in TrailAt(trace, acts, n) <==> exists i :: k < i < n && CaughtBetween(trace, acts, k, i)
  {
    SurvivesIff(Changes(trace, acts), n, k);
    FateIsOnTrail(Changes(trace, acts), n, k);
    CaughtSomewhereIff(trace, acts, n, k);
  }

  /** ... and an edit has reached the committed value exactly if it did. */
  lemma EditLandsIff<T>(trace: seq<State<T>>, acts: seq<Action<T>>, n: nat, k: nat)
    requires IsRun(trace, acts) && k < n <= |acts| && acts[k].Edit?
    ensures k in TrailAt(trace, acts, n) <==> exists i :: k < i < n && CaughtBetween(trace, acts, k, i)
  {
    SurvivesIff(Changes(trace, acts), n, k);
    FateIsOnTrail(Changes(trace, acts), n, k);
    CaughtSomewhereIff(trace, acts, n, k);
  }

  // ---- A run that loses an update -------------------------------------------------------------

  /** A run goes on with any step that is enabled. */
  lemma GoOn<T>(trace: seq<State<T>>, acts: seq<Action<T>>, act: Action<T>)
    returns (trace': seq<State<T>>, acts': seq<Action<T>>)
    requires IsRun(trace, acts) && Inv(trace[|acts|]) && Enabled(trace[|acts|], act)
    ensures IsRun(trace', acts') && acts' == acts + [act]
    ensures trace' == trace + [Next(trace[|acts|], act)]
  {
    trace', acts' := trace + [Next(trace[|acts|], act)], acts + [act];
    forall k | 0 <= k < |acts'| ensures StepAt(trace', acts', k) {
      if k < |acts| {
        assert StepAt(trace, acts, k);
      }
    }
  }

  /** A layer with one update that has read `v` and is about to finish; `epoch` is the version it read. */
  ghost predicate OneEditing<T>(s: State<T>, v: T, f: T -> Option<T>) {
    && Inv(s) && s.store.Committed() == v && |s.tasks| == 1
    && s.tasks[0] == Task(f, Editing(s.epoch))
  }

  lemma Spawned<T>(v: T, f: T -> Option<T>)
    ensures Inv(Init(v, 0)) && Init(v, 0).store.Committed() == v
    ensures var s := Next(Init(v, 0), Spawn(f));
      Inv(s) && s.tasks == [Task(f, Start)] && !s.modifying && s.store == Init(v, 0).store && s.epoch == 0
  {
    InitKeepsInv(v, 0);
    NextKeepsInv(Init(v, 0), Spawn(f));
  }

  lemma TakesFlag<T>(s: State<T>, f: T -> Option<T>, a: Addr)
    requires Inv(s) && s.tasks == [Task(f, Start)] && !s.modifying && a !in s.store.heap
    ensures var s' := Next(s, Run(0, a));
      Inv(s') && s'.tasks == [Task(f, Holding)] && s'.store == s.store && s'.epoch == s.epoch
  {
    NextKeepsInv(s, Run(0, a));
  }

  lemma ReadsCommitted<T>(s: State<T>, v: T, f: T -> Option<T>, a: Addr)
    requires Inv(s) && s.tasks == [Task(f, Holding)] && a !in s.store.heap && s.store.Committed() == v
    ensures var s' := Next(s, Run(0, a));
      OneEditing(s', v, f) && s'.store.draft == s.store.draft && s'.store.heap.Keys == s.store.heap.Keys
  {
    NextKeepsInv(s, Run(0, a));
    TakeRefines(s, Update(0), s.store.committed);
  }

  /** The shortest run to there: start the update, take the flag, read. */
  lemma StartsEditing<T>(v: T, f: T -> Option<T>) returns (trace: seq<State<T>>, acts: seq<Action<T>>)
    ensures IsRun(trace, acts) && |acts| == 3 && acts[0] == Spawn(f)
    ensures Inv(trace[0]) && trace[0].store.Committed() == v
    ensures OneEditing(trace[3], v, f) && trace[3].store.draft.None? && trace[3].store.heap.Keys == {0}
  {
    Spawned(v, f);
    trace, acts := [Init(v, 0)], [];
    trace, acts := GoOn(trace, acts, Spawn(f));
    TakesFlag(trace[1], f, 1);
    trace, acts := GoOn(trace, acts, Run(0, 1));
    ReadsCommitted(trace[2], v, f, 1);
    trace, acts := GoOn(trace, acts, Run(0, 1));
  }

  /** Staging an edit leaves the update where it is. */
  lemma StagesBeside<T>(s: State<T>, v: T, f: T -> Option<T>, g: T -> T, a: Addr)
    requires OneEditing(s, v, f) && s.store.draft.None? && a !in s.store.heap
    ensures var s' := Next(s, Edit(g, a));
      && OneEditing(s', v, f) && Abs(s'.store) == Layer(v, Some(g(v)))
      && s'.store.heap.Keys == s.store.heap.Keys + {a}
  {
    NextKeepsInv(s, Edit(g, a));
    StepRefines(s, Edit(g, a));
  }

  lemma WritesUnder<T>(s: State<T>, v: T, f: T -> Option<T>, a: Addr)
    requires OneEditing(s, v, f) && f(v).Some? && a !in s.store.heap
    ensures Writes(s, 0) && Inv(Next(s, Run(0, a)))
    ensures Abs(Next(s, Run(0, a)).store) == Layer(f(v).value, Abs(s.store).draft)
  {
    NextKeepsInv(s, Run(0, a));
    StepRefines(s, Run(0, a));
  }

  lemma AppliesOver<T>(s: State<T>)
    requires Inv(s) && s.store.draft.Some?
    ensures Inv(Next(s, Apply)) && Some(Next(s, Apply).store.Committed()) == Abs(s.store).draft
  {
    NextKeepsInv(s, Apply);
    StepRefines(s, Apply);
  }

  /** That run goes on: an edit is staged, and the update is written under it. */
  lemma StagedThenWritten<T>(v: T, f: T -> Option<T>, g: T -> T) returns (trace: seq<State<T>>, acts: seq<Action<T>>)
    requires f(v).Some?
    ensures IsRun(trace, acts) && |acts| == 5
    ensures Inv(trace[0]) && trace[0].store.Committed() == v
    ensures acts[0] == Spawn(f) && acts[3] == Edit(g, 1) && acts[4] == Run(0, 2) && Writes(trace[4], 0)
    ensures Inv(trace[5]) && Abs(trace[5].store) == Layer(f(v).value, Some(g(v)))
  {
    trace, acts := StartsEditing(v, f);
    StagesBeside(trace[3], v, f, g, 1);
    trace, acts := GoOn(trace, acts, Edit(g, 1));
    WritesUnder(trace[4], v, f, 2);
    trace, acts := GoOn(trace, acts, Run(0, 2));
  }

  /**
   A run, for any update and any edit, in which the update is written and then lost: it reads at step 2, the edit is
   staged at step 3, the update is written at step 4 and the edit is committed over it at step 5.
   */
  lemma WrittenThenLost<T>(v: T, f: T -> Option<T>, g: T -> T) returns (trace: seq<State<T>>, acts: seq<Action<T>>)
    requires f(v).Some?
    ensures IsRun(trace, acts) && |acts| == 6
    ensures Inv(trace[0]) && Inv(trace[5]) && Inv(trace[6])
    ensures acts[0] == Spawn(f) && acts[3] == Edit(g, 1) && acts[4] == Run(0, 2) && acts[5] == Apply
    ensures Writes(trace[4], 0)
    ensures trace[0].store.Committed() == v
    ensures trace[5].store.Committed() == f(v).value
    ensures trace[6].store.Committed() == g(v)
  {
    trace, acts := StagedThenWritten(v, f, g);
    AppliesOver(trace[5]);
    trace, acts := GoOn(trace, acts, Apply);
  }
}
