/**
 The copy-on-write store behind one configuration layer: a committed snapshot and an optional draft,
 both reference-counted heap cells that callers may also hold.

 `Store` and the functions on it say what one critical section of the store's mutex does, as a whole.
 The class `Draft` performs the same sections statement by statement on its own fields.
 */
module DraftStore {
  import opened Basics

  type Addr = nat

  /** A reference-counted heap cell: its content and the number of references to it. */
  datatype Cell<+T> = Cell(value: T, strong: nat)

  type Heap<T> = map<Addr, Cell<T>>

  datatype Store<T> = Store(heap: Heap<T>, committed: Addr, draft: Option<Addr>) {

    /** Every cell is referenced, and the store's own two references are live and distinct. */
    ghost predicate WellFormed() {
      && committed in heap
      && (draft.Some? ==> draft.value in heap && draft.value != committed)
      && forall a <- heap :: 0 < heap[a].strong
    }

    function Committed(): T
      requires committed in heap
    {
      heap[committed].value
    }

    /** The cell `latest_arc` hands out. */
    function LatestAddr(): Addr {
      draft.GetOr(committed)
    }

    function Latest(): T
      requires LatestAddr() in heap
    {
      heap[LatestAddr()].value
    }
  }

  // ---- Reference counting --------------------------------------------------------------------

  function Retain<T>(h: Heap<T>, a: Addr): Heap<T>
    requires a in h
  {
    h[a := h[a].(strong := h[a].strong + 1)]
  }

  /** Dropping the last reference frees the cell, so its address may be handed out again. */
  function Release<T>(h: Heap<T>, a: Addr): Heap<T>
    requires a in h && 0 < h[a].strong
  {
    if h[a].strong == 1 then h - {a} else h[a := h[a].(strong := h[a].strong - 1)]
  }

  // ---- What each critical section does -------------------------------------------------------

  /** `edit_draft`: in place when the draft cell is unshared, into the fresh cell `a` otherwise. */
  function Edited<T>(s: Store<T>, f: T -> T, a: Addr): Store<T>
    requires s.WellFormed() && a !in s.heap
  {
    var v := f(s.Latest());
    match s.draft
    case None => Store(s.heap[a := Cell(v, 1)], s.committed, Some(a))
    case Some(d) =>
      if s.heap[d].strong == 1 then s.(heap := s.heap[d := Cell(v, 1)])
      else Store(Release(s.heap, d)[a := Cell(v, 1)], s.committed, Some(a))
  }

  function Applied<T>(s: Store<T>): Store<T>
    requires s.WellFormed()
  {
    if s.draft.None? then s else Store(Release(s.heap, s.committed), s.draft.value, None)
  }

  function Discarded<T>(s: Store<T>): Store<T>
    requires s.WellFormed()
  {
    if s.draft.None? then s else Store(Release(s.heap, s.draft.value), s.committed, None)
  }

  /** The write at the end of `with_data_modify`: `v` in the fresh cell `a` becomes the committed one. */
  function Replaced<T>(s: Store<T>, v: T, a: Addr): Store<T>
    requires s.WellFormed() && a !in s.heap
  {
    Store(Release(s.heap[a := Cell(v, 1)], s.committed), a, s.draft)
  }

  // ---- The store as an object ----------------------------------------------------------------

  /**
   One layer. `heap` holds the cells this layer ever allocated that are still referenced, by it or by
   a caller; `claimed` is the staging claim of transactions, `modifying` the update permit's flag.
   */
  class Draft<T> {
    var heap: Heap<T>
    var committed: Addr
    var draft: Option<Addr>
    var modifying: bool
    var claimed: bool

    function View(): Store<T>
      reads this
    {
      Store(heap, committed, draft)
    }

    constructor (data: T, a: Addr)
      ensures View() == Store(map[a := Cell(data, 1)], a, None) && View().WellFormed()
      ensures !modifying && !claimed
    {
      heap := map[a := Cell(data, 1)];
      committed := a;
      draft := None;
      modifying := false;
      claimed := false;
    }

    method DataArc() returns (a: Addr)
      requires View().WellFormed()
      modifies `heap
      ensures View().WellFormed()
      ensures a == committed && heap == Retain(old(heap), a)
    {
      a := committed;
      heap := heap[a := heap[a].(strong := heap[a].strong + 1)];
    }

    method LatestArc() returns (a: Addr)
      requires View().WellFormed()
      modifies `heap
      ensures View().WellFormed()
      ensures a == old(View()).LatestAddr() && heap == Retain(old(heap), a)
    {
      if draft.Some? {
        a := draft.value;
      } else {
        a := committed;
      }
      heap := heap[a := heap[a].(strong := heap[a].strong + 1)];
    }

    /** Drops one reference to the cell at `a`. */
    method DropArc(a: Addr)
      requires a in heap && 0 < heap[a].strong
      modifies `heap
      ensures heap == Release(old(heap), a)
    {
      if heap[a].strong == 1 {
        heap := heap - {a};
      } else {
        heap := heap[a := heap[a].(strong := heap[a].strong - 1)];
      }
    }

    /** Copies the cell into the spare address unless `a` is its only reference. */
    method MakeMut(a: Addr, spare: Addr) returns (unique: Addr)
      requires a in heap && 0 < heap[a].strong && spare !in heap
      modifies `heap
      ensures unique == (if old(heap)[a].strong == 1 then a else spare)
      ensures heap == if old(heap)[a].strong == 1 then old(heap)
                      else Release(old(heap), a)[spare := Cell(old(heap)[a].value, 1)]
    {
      if heap[a].strong == 1 {
        unique := a;
      } else {
        heap := heap[spare := Cell(heap[a].value, 1)];
        DropArc(a);
        unique := spare;
      }
    }

    method EditDraft(f: T -> T, spare: Addr)
      requires View().WellFormed() && spare !in heap
      modifies `heap, `draft
      ensures View() == Edited(old(View()), f, spare) && View().WellFormed()
      ensures View().Latest() == f(old(View().Latest()))
      ensures View().Committed() == old(View().Committed())
    {
      var arc;
      if draft.Some? {
        arc := draft.value;
        draft := None;
      } else {
        arc := committed;
        heap := heap[arc := heap[arc].(strong := heap[arc].strong + 1)];
      }
      arc := MakeMut(arc, spare);
      heap := heap[arc := heap[arc].(value := f(heap[arc].value))];
      draft := Some(arc);
    }

    method Apply()
      requires View().WellFormed()
      modifies `heap, `committed, `draft
      ensures View() == Applied(old(View())) && View().WellFormed()
      ensures draft == None && View().Committed() == old(View().Latest())
    {
      if draft.Some? {
        var d := draft.value;
        draft := None;
        var previous := committed;
        committed := d;
        DropArc(previous);
      }
    }

    method Discard()
      requires View().WellFormed()
      modifies `heap, `draft
      ensures View() == Discarded(old(View())) && View().WellFormed()
      ensures draft == None && View().Committed() == old(View().Committed())
    {
      if draft.Some? {
        var d := draft.value;
        draft := None;
        DropArc(d);
      }
    }

    /** First section of `with_data_modify`: a private copy of the value and the cell it came from. */
    method BeginModify() returns (local: T, original: Addr)
      requires View().WellFormed()
      modifies `heap
      ensures View().WellFormed()
      ensures original == committed && heap == Retain(old(heap), original)
      ensures local == old(View().Committed())
    {
      original := DataArc();
      local := heap[original].value;
    }

    /** Last section of `with_data_modify`: write only if the committed cell is still `original`. */
    method FinishModify(original: Addr, newLocal: T, spare: Addr) returns (ok: bool)
      requires View().WellFormed() && spare !in heap
      modifies `heap, `committed
      ensures ok == (old(committed) == original)
      ensures View() == if ok then Replaced(old(View()), newLocal, spare) else old(View())
    {
      if committed != original {
        return false;
      }
      heap := heap[spare := Cell(newLocal, 1)];
      var previous := committed;
      committed := spare;
      DropArc(previous);
      ok := true;
    }

    /** The compare-exchange behind the update permit. */
    method TryAcquirePermit() returns (ok: bool)
      modifies `modifying
      ensures modifying && ok == !old(modifying)
    {
      ok := !modifying;
      if ok {
        modifying := true;
      }
    }

    method TryClaim() returns (ok: bool)
      modifies `claimed
      ensures claimed && ok == !old(claimed)
    {
      ok := !claimed;
      if ok {
        claimed := true;
      }
    }

    method ReleaseClaim()
      modifies `claimed
      ensures !claimed
    {
      claimed := false;
    }
  }
}
