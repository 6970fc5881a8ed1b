/** The store behind the `hasMapMoveSinceLastRefine` /
    `setMapMoveSinceLastRefine` pair the GeoSearch component receives. The
    store re-renders its children only when the flag really changes. */
module MapMoveProvider {

  /** How many re-renders a sequence of setter calls causes, starting from
      the flag value `start`: one per call that changes the value. */
  function Rerenders(start: bool, calls: seq<bool>): nat
    decreases |calls|
  {
    if |calls| == 0 then 0
    else (if calls[0] != start then 1 else 0) + Rerenders(calls[0], calls[1..])
  }

  /** The flag after a sequence of setter calls. */
  function FinalValue(start: bool, calls: seq<bool>): bool
  {
    if |calls| == 0 then start else calls[|calls| - 1]
  }

  /** Re-renders never outnumber setter calls. */
  lemma {:induction false} RerendersAtMostCalls(start: bool, calls: seq<bool>)
    ensures Rerenders(start, calls) <= |calls|
    decreases |calls|
  {
    if |calls| > 0 {
      RerendersAtMostCalls(calls[0], calls[1..]);
    }
  }

  /** Repeating one value re-renders at most once, and only if that value
      differs from where the flag started. */
  lemma {:induction false} RepeatedValueRendersOnce(start: bool, v: bool, n: nat)
    ensures Rerenders(start, seq(n, _ => v)) == if n > 0 && v != start then 1 else 0
    decreases n
  {
    if n > 0 {
      var calls := seq(n, _ => v);
      assert calls[0] == v && calls[1..] == seq(n - 1, _ => v);
      RepeatedValueRendersOnce(v, v, n - 1);
    }
  }

  /** Re-renders of a concatenation of call sequences add up. */
  lemma {:induction false} RerendersAppend(start: bool, a: seq<bool>, b: seq<bool>)
    ensures Rerenders(start, a + b) == Rerenders(start, a) + Rerenders(FinalValue(start, a), b)
    decreases |a|
  {
    if |a| == 0 {
      assert a + b == b;
    } else {
      assert (a + b)[0] == a[0] && (a + b)[1..] == a[1..] + b;
      RerendersAppend(a[0], a[1..], b);
      assert FinalValue(a[0], a[1..]) == FinalValue(start, a);
    }
  }

  class Provider {
    var hasMapMoveSinceLastRefine: bool
    /** How many times the children have been rendered. */
    var renderCount: nat

    /** Mounting renders the children once, with the flag false. */
    constructor ()
      ensures !hasMapMoveSinceLastRefine && renderCount == 1
    {
      hasMapMoveSinceLastRefine := false;
      renderCount := 1;
    }

    /** `setMapMoveSinceLastRefine(value)`: updates the flag and re-renders
        only when the value differs from the current one. */
    method SetMapMoveSinceLastRefine(value: bool)
      modifies this
      ensures hasMapMoveSinceLastRefine == value
      ensures renderCount == old(renderCount) + Rerenders(old(hasMapMoveSinceLastRefine), [value])
    {
      if value != hasMapMoveSinceLastRefine {
        hasMapMoveSinceLastRefine := value;
        renderCount := renderCount + 1;
      }
    }
  }

  /** The recorded behaviour: mount, set to true, set to true again. */
  method SetterScenario()
  {
    var provider := new Provider();
    assert provider.renderCount == 1 && !provider.hasMapMoveSinceLastRefine;
    provider.SetMapMoveSinceLastRefine(true);
    assert provider.renderCount == 2 && provider.hasMapMoveSinceLastRefine;
    provider.SetMapMoveSinceLastRefine(true);
    assert provider.renderCount == 2 && provider.hasMapMoveSinceLastRefine;
  }
}
