/** oak's middleware composition: `compose(middleware)` returns a function
    that, on each call, starts a fresh `dispatch` chain at index 0.  Each
    middleware is given a `next` that dispatches the one after it, the
    outer `next` runs after the last middleware, and calling a `next` a
    second time is refused. */
module Middleware {
  import opened Wrappers

  /** The error `dispatch` throws: "next() called multiple times." */
  datatype ComposeError = MultipleNext

  /** What a middleware function does with its `next`: it awaits it `calls`
      times, one after the other, and lets any error through. */
  datatype Handler = Handler(calls: nat)

  /** The function `dispatch(i)` runs: middleware `i`, the outer `next` at
      the end of the list, and nothing past it. */
  function FnAt(middleware: seq<Handler>, next: Option<Handler>, i: nat): (r: Option<Handler>)
    ensures r.Some? ==> i <= |middleware|
  {
    if i < |middleware| then Some(middleware[i])
    else if i == |middleware| then next
    else None
  }

  /** What a dispatch leaves behind: its result, the last index recorded,
      and the indexes of the functions entered, in the order entered. */
  datatype Outcome = Outcome(result: Result<(), ComposeError>, index: int, entered: seq<nat>)

  /** `dispatch(i)` with `index` as the last recorded index. */
  function DispatchOutcome(middleware: seq<Handler>, next: Option<Handler>, i: nat, index: int): Outcome
    decreases |middleware| + 1 - i, 1, 0
  {
    if i <= index then Outcome(Err(MultipleNext), index, [])
    else match FnAt(middleware, next, i)
      case None => Outcome(Ok(()), i, [])
      case Some(fn) => CallsOutcome(middleware, next, i, fn.calls, Outcome(Ok(()), i, [i]))
  }

  /** The function entered at `i` awaiting its `next` `k` more times, after
      `acc` so far. */
  function CallsOutcome(middleware: seq<Handler>, next: Option<Handler>, i: nat, k: nat, acc: Outcome): Outcome
    requires i <= |middleware|
    decreases |middleware| + 1 - i, 0, k
  {
    if k == 0 then acc
    else
      var o := DispatchOutcome(middleware, next, i + 1, acc.index);
      var acc' := Outcome(o.result, o.index, acc.entered + o.entered);
      if o.result.Err? then acc' else CallsOutcome(middleware, next, i, k - 1, acc')
  }

  /** The closure of one call of the composed middleware: the middleware
      list, the outer `next`, and the `index` that `dispatch` updates. */
  class Dispatcher {
    const middleware: seq<Handler>
    const next: Option<Handler>
    var index: int
    /** The indexes of the functions entered so far, in order. */
    var entered: seq<nat>

    constructor (middleware: seq<Handler>, next: Option<Handler>)
      ensures this.middleware == middleware && this.next == next
      ensures index == -1 && entered == []
    {
      this.middleware := middleware;
      this.next := next;
      index := -1;
      entered := [];
    }

    /** `dispatch(i)`. */
    method Dispatch(i: nat) returns (r: Result<(), ComposeError>)
      modifies this
      decreases |middleware| + 1 - i
      ensures var o := DispatchOutcome(middleware, next, i, old(index));
        r == o.result && index == o.index && entered == old(entered) + o.entered
    {
      if i <= index {
        return Err(MultipleNext);
      }
      index := i;
      var fn := if i < |middleware| then Some(middleware[i]) else None;
      if i == |middleware| {
        fn := next;
      }
      assert fn == FnAt(middleware, next, i);
      if fn.None? {
        return Ok(());
      }
      entered := entered + [i];
      ghost var mine: seq<nat> := [i];
      ghost var whole := CallsOutcome(middleware, next, i, fn.value.calls, Outcome(Ok(()), i, [i]));
      r := Ok(());
      var k := 0;
      while k < fn.value.calls
        invariant 0 <= k <= fn.value.calls
        invariant r == Ok(())
        invariant entered == old(entered) + mine
        invariant whole == CallsOutcome(middleware, next, i, fn.value.calls - k, Outcome(Ok(()), index, mine))
      {
        ghost var o := DispatchOutcome(middleware, next, i + 1, index);
        ghost var acc := Outcome(o.result, o.index, mine + o.entered);
        assert CallsOutcome(middleware, next, i, fn.value.calls - k, Outcome(Ok(()), index, mine))
          == if o.result.Err? then acc else CallsOutcome(middleware, next, i, fn.value.calls - k - 1, acc);
        r := Dispatch(i + 1);
        mine := mine + o.entered;
        if r.Err? {
          return r;
        }
        assert r.value == ();
        k := k + 1;
      }
    }
  }

  /** One call of the function `compose(middleware)` returns: a fresh
      `index` of -1, then `dispatch(0)`. */
  method ComposedMiddleware(middleware: seq<Handler>, next: Option<Handler>)
      returns (r: Result<(), ComposeError>, entered: seq<nat>)
    ensures var o := DispatchOutcome(middleware, next, 0, -1);
      r == o.result && entered == o.entered
  {
    var d := new Dispatcher(middleware, next);
    r := d.Dispatch(0);
    entered := d.entered;
  }

  // ----------------------------------------------------------- properties

  predicate Increasing(s: seq<nat>) {
    forall a, b :: 0 <= a < b < |s| ==> s[a] < s[b]
  }

  /** A dispatch never lowers the index; a dispatch that passes its check
      records at least its own index; the functions it enters come in
      increasing order of index, each above the index it started from and
      its own, and none above the index it leaves. */
  lemma {:induction false} DispatchFacts(middleware: seq<Handler>, next: Option<Handler>, i: nat, index: int)
    ensures var o := DispatchOutcome(middleware, next, i, index);
      && o.index >= index
      && (i > index ==> o.index >= i)
      && (i <= index ==> o.result.Err?)
      && Increasing(o.entered)
      && forall x :: x in o.entered ==> i <= x && index < x <= o.index
    decreases |middleware| + 1 - i, 1, 0
  {
    if i > index {
      match FnAt(middleware, next, i)
      case None =>
      case Some(fn) =>
        CallsFacts(middleware, next, i, fn.calls, Outcome(Ok(()), i, [i]));
    }
  }

  lemma {:induction false} CallsFacts(middleware: seq<Handler>, next: Option<Handler>, i: nat, k: nat, acc: Outcome)
    requires i <= |middleware|
    requires acc.index >= i && Increasing(acc.entered)
    requires forall x :: x in acc.entered ==> i <= x <= acc.index
    ensures var o := CallsOutcome(middleware, next, i, k, acc);
      && o.index >= acc.index
      && Increasing(o.entered)
      && forall x :: x in o.entered ==> i <= x <= o.index
    decreases |middleware| + 1 - i, 0, k
  {
    if k > 0 {
      var o := DispatchOutcome(middleware, next, i + 1, acc.index);
      DispatchFacts(middleware, next, i + 1, acc.index);
      var acc' := Outcome(o.result, o.index, acc.entered + o.entered);
      assert Increasing(acc'.entered) by {
        forall a, b | 0 <= a < b < |acc'.entered| ensures acc'.entered[a] < acc'.entered[b] {
          if b < |acc.entered| {
            assert acc'.entered[a] == acc.entered[a] && acc'.entered[b] == acc.entered[b];
          } else if a < |acc.entered| {
            assert acc.entered[a] in acc.entered;
            assert o.entered[b - |acc.entered|] in o.entered;
          } else {
            assert acc'.entered[a] == o.entered[a - |acc.entered|];
          }
        }
      }
      assert forall x :: x in acc'.entered ==> i <= x <= acc'.index;
      if o.result.Ok? {
        CallsFacts(middleware, next, i, k - 1, acc');
      }
    }
  }

  /** A function that awaits its `next` twice makes the dispatch fail: the
      first call records an index past its own, so the second is refused. */
  lemma DoubleNextFails(middleware: seq<Handler>, next: Option<Handler>, i: nat, index: int)
    requires i > index && FnAt(middleware, next, i).Some? && FnAt(middleware, next, i).value.calls >= 2
    ensures DispatchOutcome(middleware, next, i, index).result == Err(MultipleNext)
  {
    var fn := FnAt(middleware, next, i).value;
    var o1 := DispatchOutcome(middleware, next, i + 1, i);
    var acc1 := Outcome(o1.result, o1.index, [i] + o1.entered);
    assert DispatchOutcome(middleware, next, i, index)
      == if o1.result.Err? then acc1 else CallsOutcome(middleware, next, i, fn.calls - 1, acc1);
    DispatchFacts(middleware, next, i + 1, i);
    if o1.result.Ok? {
      DispatchFacts(middleware, next, i + 1, o1.index);
      assert CallsOutcome(middleware, next, i, fn.calls - 1, acc1).result == Err(MultipleNext);
    } else {
      assert o1.result.error == MultipleNext;
    }
  }

  /** `dispatch(middleware.length)` runs the outer `next`, whose own `next`
      finds no function and returns; a second call of that one is refused.
      Without an outer `next` the dispatch returns at once. */
  lemma OuterNext(middleware: seq<Handler>, next: Option<Handler>, index: int)
    requires |middleware| > index
    ensures var o := DispatchOutcome(middleware, next, |middleware|, index);
      && (next.None? ==> o == Outcome(Ok(()), |middleware|, []))
      && (next.Some? ==> o.entered == [|middleware|] && (o.result.Ok? <==> next.value.calls <= 1))
  {
    var n := |middleware|;
    if next.Some? && next.value.calls >= 1 {
      var k := next.value.calls;
      assert DispatchOutcome(middleware, next, n + 1, n) == Outcome(Ok(()), n + 1, []);
      var acc1 := Outcome(Ok(()), n + 1, [n] + []);
      assert CallsOutcome(middleware, next, n, k, Outcome(Ok(()), n, [n])) == CallsOutcome(middleware, next, n, k - 1, acc1);
      if k >= 2 {
        assert DispatchOutcome(middleware, next, n + 1, n + 1) == Outcome(Err(MultipleNext), n + 1, []);
        assert CallsOutcome(middleware, next, n, k - 1, acc1) == Outcome(Err(MultipleNext), n + 1, [n] + [] + []);
      }
    }
  }

  /** The indexes from `lo` up to, not including, `hi`. */
  function Range(lo: nat, hi: nat): (r: seq<nat>)
    ensures |r| == if lo <= hi then hi - lo else 0
    decreases hi - lo
  {
    if lo >= hi then [] else [lo] + Range(lo + 1, hi)
  }

  /** When every function calls its `next` exactly once, the chain enters
      every middleware in array order, then the outer `next` if there is
      one, and succeeds. */
  lemma {:induction false} ChainRuns(middleware: seq<Handler>, next: Option<Handler>, i: nat)
    requires forall j :: 0 <= j < |middleware| ==> middleware[j].calls == 1
    requires next.Some? ==> next.value.calls == 1
    requires i <= |middleware| + (if next.Some? then 1 else 0)
    ensures var last := |middleware| + (if next.Some? then 1 else 0);
      DispatchOutcome(middleware, next, i, i - 1) == Outcome(Ok(()), last, Range(i, last))
    decreases |middleware| + 1 - i
  {
    var last := |middleware| + (if next.Some? then 1 else 0);
    if i < last {
      ChainRuns(middleware, next, i + 1);
      var o := DispatchOutcome(middleware, next, i + 1, i);
      assert o == Outcome(Ok(()), last, Range(i + 1, last));
      var acc' := Outcome(Ok(()), last, [i] + Range(i + 1, last));
      assert CallsOutcome(middleware, next, i, 1, Outcome(Ok(()), i, [i])) == acc';
    }
  }

  /** The composed middleware, on such a chain, runs every function once in
      order and succeeds. */
  lemma ComposedChainRuns(middleware: seq<Handler>, next: Option<Handler>)
    requires forall j :: 0 <= j < |middleware| ==> middleware[j].calls == 1
    requires next.Some? ==> next.value.calls == 1
    ensures var o := DispatchOutcome(middleware, next, 0, -1);
      o.result == Ok(()) && o.entered == Range(0, |middleware| + (if next.Some? then 1 else 0))
  {
    ChainRuns(middleware, next, 0);
  }
}
