/** The `threadControl` list of `MapTileDownloader` as a value: one boolean
    slot per `loadTile` call, false until that call decodes its tile, and a
    rescan after every successful decode that empties the list when every
    slot is true. Calls are atomic steps on this list. */
module ThreadControl {

  /** Every slot records a finished load (vacuously true of the empty list). */
  predicate AllDone(slots: seq<bool>) {
    forall i :: 0 <= i < |slots| ==> slots[i]
  }

  /** The loop of `checkThreadControl`: stops at the first false slot. */
  method Scan(slots: seq<bool>) returns (allDone: bool)
    ensures allDone <==> AllDone(slots)
  {
    for i := 0 to |slots|
      invariant forall j :: 0 <= j < i ==> slots[j]
    {
      if !slots[i] {
        return false;
      }
    }
    return true;
  }

  /** The list after a step, and whether `checkThreadControl` reported true. */
  datatype StepResult = StepResult(slots: seq<bool>, fired: bool)

  /** `checkThreadControl` on a value: reports true exactly when every slot is
      true, and only then replaces the list with an empty one. */
  function Check(slots: seq<bool>): (r: StepResult)
    ensures r.fired <==> AllDone(slots)
    ensures r.fired ==> r.slots == []
    ensures !r.fired ==> r.slots == slots
  {
    if AllDone(slots) then StepResult([], true) else StepResult(slots, false)
  }

  /** One step of a load on the list. `Begin` is `threadControl.add(false)`
      at the start of every `loadTile`; `Complete(i)` is the successful-decode
      path: `set(i, true)` and then `checkThreadControl`. */
  datatype Event = Begin | Complete(index: nat)

  /** An index past the end makes `set` throw; `loadTile` catches that and the
      list is left as it was. */
  function Step(slots: seq<bool>, e: Event): (r: StepResult)
    ensures e.Begin? ==> r == StepResult(slots + [false], false)
    ensures r.fired <==>
      e.Complete? && e.index < |slots|
      && forall j :: 0 <= j < |slots| && j != e.index ==> slots[j]
    ensures r.fired ==> r.slots == []
    ensures e.Complete? && !r.fired ==>
      r.slots == if e.index < |slots| then slots[e.index := true] else slots
  {
    match e
    case Begin => StepResult(slots + [false], false)
    case Complete(i) =>
      if i < |slots| then
        var marked := slots[i := true];
        assert forall j :: 0 <= j < |slots| ==> marked[j] == (j == i || slots[j]);
        Check(marked)
      else StepResult(slots, false)
  }

  /** The final list of a run of steps and, per step, whether it fired. */
  datatype Trace = Trace(final: seq<bool>, fired: seq<bool>)

  function Run(slots: seq<bool>, events: seq<Event>): (t: Trace)
    ensures |t.fired| == |events|
    decreases |events|
  {
    if events == [] then Trace(slots, [])
    else
      var r := Step(slots, events[0]);
      var rest := Run(r.slots, events[1..]);
      Trace(rest.final, [r.fired] + rest.fired)
  }

  /** `k` loads dispatched one after another, none finished yet. */
  function Begins(k: nat): (es: seq<Event>)
    ensures |es| == k && forall j :: 0 <= j < k ==> es[j] == Begin
  {
    seq(k, _ => Begin)
  }

  /** The successful completions of the loads with the given indices, in order. */
  function Completions(order: seq<nat>): (es: seq<Event>)
    ensures |es| == |order| && forall j :: 0 <= j < |order| ==> es[j] == Complete(order[j])
  {
    seq(|order|, j requires 0 <= j < |order| => Complete(order[j]))
  }

  /** A list of `k` false slots. */
  function Pending(k: nat): (s: seq<bool>)
    ensures |s| == k && forall j :: 0 <= j < k ==> !s[j]
  {
    seq(k, _ => false)
  }

  /** `order` lists each of the indices 0 .. k-1 exactly once. */
  predicate IsPermutation(order: seq<nat>, k: nat) {
    |order| == k
    && (forall i :: 0 <= i < |order| ==> order[i] < k)
    && (forall i, j :: 0 <= i < j < |order| ==> order[i] != order[j])
    && (forall v :: 0 <= v < k ==> v in order)
  }

  /** Running two event lists one after the other is running their concatenation. */
  lemma {:induction false} RunAppend(slots: seq<bool>, a: seq<Event>, b: seq<Event>)
    ensures Run(slots, a + b) ==
      Trace(Run(Run(slots, a).final, b).final, Run(slots, a).fired + Run(Run(slots, a).final, b).fired)
    decreases |a|
  {
    if a == [] {
      assert a + b == b;
    } else {
      assert (a + b)[0] == a[0];
      assert (a + b)[1..] == a[1..] + b;
      RunAppend(Step(slots, a[0]).slots, a[1..], b);
    }
  }

  /** Dispatching `k` loads appends `k` false slots and never fires. */
  lemma {:induction false} BeginsAppendPending(slots: seq<bool>, k: nat)
    ensures Run(slots, Begins(k)) == Trace(slots + Pending(k), Pending(k))
    decreases k
  {
    if k > 0 {
      assert Begins(k)[1..] == Begins(k - 1);
      BeginsAppendPending(slots + [false], k - 1);
      assert slots + [false] + Pending(k - 1) == slots + Pending(k);
      assert [false] + Pending(k - 1) == Pending(k);
    }
  }

  /** When the loads still owning a false slot complete one by one, only the
      completion of the last of them fires, and it leaves the list empty. */
  lemma {:induction false} LastCompletionFires(slots: seq<bool>, order: seq<nat>)
    requires |order| > 0
    requires forall i :: 0 <= i < |order| ==> order[i] < |slots|
    requires forall i, j :: 0 <= i < j < |order| ==> order[i] != order[j]
    requires forall j :: 0 <= j < |slots| ==> (!slots[j] <==> j in order)
    ensures Run(slots, Completions(order)) == Trace([], Pending(|order| - 1) + [true])
    decreases |order|
  {
    var es := Completions(order);
    var r := Step(slots, es[0]);
    assert es[1..] == Completions(order[1..]);
    if |order| == 1 {
      assert r.fired;
    } else {
      assert order[1] != order[0] && !slots[order[1]];
      assert !r.fired;
      var next := slots[order[0] := true];
      assert r.slots == next;
      forall j | 0 <= j < |next|
        ensures !next[j] <==> j in order[1..]
      {
        if j in order[1..] {
          var i :| 1 <= i < |order| && order[i] == j;
          assert order[i] != order[0];
        }
      }
      LastCompletionFires(next, order[1..]);
      assert [false] + Pending(|order| - 2) == Pending(|order| - 1);
    }
  }

  /** A load that never completes (it left early, or threw) keeps its false
      slot forever, and no later step fires. */
  lemma {:induction false} AbandonedSlotBlocks(slots: seq<bool>, events: seq<Event>, k: nat)
    requires k < |slots| && !slots[k]
    requires forall j :: 0 <= j < |events| ==> events[j] != Complete(k)
    ensures k < |Run(slots, events).final| && !Run(slots, events).final[k]
    ensures forall j :: 0 <= j < |events| ==> !Run(slots, events).fired[j]
    decreases |events|
  {
    if events != [] {
      var r := Step(slots, events[0]);
      assert !r.fired;
      assert k < |r.slots| && !r.slots[k];
      AbandonedSlotBlocks(r.slots, events[1..], k);
      var rest := Run(r.slots, events[1..]);
      forall j | 0 <= j < |events|
        ensures !Run(slots, events).fired[j]
      {
        if j > 0 {
          assert Run(slots, events).fired[j] == rest.fired[j - 1];
        }
      }
    }
  }

  /** The false slots of `Pending(k)` are exactly the indices a permutation lists. */
  lemma PermutationMarksPending(k: nat, order: seq<nat>)
    requires IsPermutation(order, k)
    ensures forall j :: 0 <= j < |Pending(k)| ==> (!Pending(k)[j] <==> j in order)
  {
  }

  /** k pending slots followed by the k-1 quiet completions and the firing one. */
  lemma PendingSplit(k: nat)
    requires k > 0
    ensures Pending(k) + (Pending(k - 1) + [true]) == Pending(2 * k - 1) + [true]
  {
  }

  /** A batch of `k` loads dispatched together from an empty list and then
      all decoded successfully, in any order, fires exactly once: on the last
      completion, which empties the list again. */
  lemma BatchFiresOnce(k: nat, order: seq<nat>)
    requires k > 0 && IsPermutation(order, k)
    ensures Run([], Begins(k) + Completions(order)) == Trace([], Pending(2 * k - 1) + [true])
  {
    BeginsAppendPending([], k);
    assert [] + Pending(k) == Pending(k);
    PermutationMarksPending(k, order);
    LastCompletionFires(Pending(k), order);
    RunAppend([], Begins(k), Completions(order));
    PendingSplit(k);
  }
}
