/** A transaction over several draft layers, run on its own: begin, commit and drop, layer by layer. */
module DraftTransaction {
  import opened Basics
  import opened DraftStore

  /** The layer at `index` is the one `begin` fails on: the first claimed or named before. */
  ghost predicate FailsAt<T>(layers: seq<Draft<T>>, claimed: set<Draft<T>>, index: nat)
    requires index < |layers|
  {
    && (layers[index] in claimed || layers[index] in layers[..index])
    && NoRepeats(layers[..index])
    && forall k | 0 <= k < index :: layers[k] !in claimed
  }

  class DraftTransaction<T> {
    const layers: seq<Draft<T>>
    var committed: bool

    constructor (layers: seq<Draft<T>>)
      ensures this.layers == layers && !committed
    {
      this.layers := layers;
      committed := false;
    }

    /** `commit`: apply every layer in order, then drop. */
    method Commit()
      requires NoRepeats(layers) && forall l <- layers :: l.View().WellFormed()
      modifies this, layers
      ensures forall l <- layers :: l.View() == Applied(old(l.View())) && !l.claimed
    {
      for i := 0 to |layers|
        invariant forall k | 0 <= k < i :: layers[k].View() == Applied(old(layers[k].View()))
        invariant forall k | i <= k < |layers| :: layers[k].View() == old(layers[k].View())
      {
        layers[i].Apply();
      }
      committed := true;
      Drop();
    }

    /** Discards every draft unless committed, and gives back every claim. */
    method Drop()
      requires NoRepeats(layers) && forall l <- layers :: committed || l.View().WellFormed()
      modifies this, layers
      ensures forall l <- layers :: !l.claimed
      ensures forall l <- layers :: l.View() == if old(committed) then old(l.View()) else Discarded(old(l.View()))
      ensures committed == old(committed)
    {
      for i := 0 to |layers|
        invariant committed == old(committed)
        invariant forall k | 0 <= k < i :: !layers[k].claimed && layers[k].View() ==
                    if committed then old(layers[k].View()) else Discarded(old(layers[k].View()))
        invariant forall k | i <= k < |layers| :: layers[k].View() == old(layers[k].View())
      {
        if !committed {
          layers[i].Discard();
        }
        layers[i].ReleaseClaim();
      }
    }
  }

  /**
   `begin` succeeds exactly when the layers are distinct and all unclaimed, and then holds them all.
   Otherwise it reports the first layer in the way and leaves every claim as it was.
   */
  method Begin<T>(layers: seq<Draft<T>>) returns (r: Result<DraftTransaction<T>, nat>)
    modifies layers`claimed
    ensures r.Ok? <==> NoRepeats(layers) && forall l <- layers :: !old(l.claimed)
    ensures r.Ok? ==> fresh(r.value) && r.value.layers == layers && !r.value.committed
    ensures r.Ok? ==> forall l <- layers :: l.claimed
    ensures r.Err? ==> forall l <- layers :: l.claimed == old(l.claimed)
    ensures r.Err? ==> r.error < |layers| && FailsAt(layers, (set l | l in layers && old(l.claimed)), r.error)
  {
    for index := 0 to |layers|
      invariant NoRepeats(layers[..index])
      invariant forall k | 0 <= k < index :: !old(layers[k].claimed) && layers[k].claimed
      invariant forall l <- layers | l !in layers[..index] :: l.claimed == old(l.claimed)
    {
      var ok := layers[index].TryClaim();
      if !ok {
        for k := 0 to index
          invariant forall j | 0 <= j < k :: !layers[j].claimed
          invariant forall l <- layers | l !in layers[..index] :: l.claimed == old(l.claimed)
        {
          layers[k].ReleaseClaim();
        }
        return Err(index);
      }
    }
    var transaction := new DraftTransaction(layers);
    return Ok(transaction);
  }
}
