/** The asynchronous loop: a body is invoked again and again until it resolves with something other
    than an empty result, which then resolves the promise of the loop; and the loop over a range. */
module Looping {
  import opened Results

  /** What one invocation of the body does: its continuable resolves with a `result`, fails, never
      resolves, or the body throws before it returns a continuable. */
  datatype Attempt = Produces(result: Outcome) | Rejects(error: Error) | Never | Raises(error: Error)

  /** The body by the number of its invocation. */
  type Body = nat -> Attempt

  /** How far a loop has come: the invocations made, whether one of them is outstanding, and what the
      promise was resolved with. */
  datatype Progress = Progress(calls: nat, waiting: bool, resolved: seq<Outcome>)

  /** `loop()`: invokes the body. */
  function Invoked(body: Body, p: Progress): Progress {
    match body(p.calls)
    case Raises(e) => Progress(p.calls + 1, false, p.resolved + [Exception(e)])
    case _ => Progress(p.calls + 1, true, p.resolved)
  }

  /** The outstanding invocation resolves, if it ever does. */
  function Settled(body: Body, p: Progress): Progress {
    if !p.waiting || p.calls == 0 then p
    else
      match body(p.calls - 1)
      case Produces(o) =>
        if o.Empty? then Invoked(body, p.(waiting := false)) else Progress(p.calls, false, p.resolved + [o])
      case Rejects(e) => Progress(p.calls, false, p.resolved + [Exception(e)])
      case Never => p
      case Raises(_) => p
  }

  /** A loop that was started, after at most `n` resolutions. */
  function After(body: Body, n: nat): Progress {
    if n == 0 then Invoked(body, Progress(0, false, [])) else Settled(body, After(body, n - 1))
  }

  /** The frame of a loop, which is kept alive by the callback of the outstanding invocation. */
  class LoopFrame {
    const body: Body
    var calls: nat
    var waiting: bool
    var resolved: seq<Outcome>

    function Now(): Progress
      reads this
    {
      Progress(calls, waiting, resolved)
    }

    constructor (body: Body)
      ensures this.body == body && Now() == Progress(0, false, [])
    {
      this.body := body;
      calls, waiting, resolved := 0, false, [];
    }

    method Loop()
      requires !waiting && resolved == []
      modifies this
      ensures Now() == Invoked(body, old(Now()))
    {
      var attempt := body(calls);
      calls := calls + 1;
      if attempt.Raises? {
        ResolveError(attempt.error);
      } else {
        waiting := true;
      }
    }

    /** The outstanding invocation resolved with a result. */
    method Resolve(o: Outcome)
      requires waiting && resolved == [] && calls > 0 && body(calls - 1) == Produces(o)
      modifies this
      ensures Now() == Settled(body, old(Now()))
    {
      waiting := false;
      if o.Empty? {
        Loop();
      } else {
        resolved := resolved + [o];
      }
    }

    /** It failed, or the body threw. The promise is still open, and this resolves it. */
    method ResolveError(e: Error)
      requires resolved == []
      modifies this
      ensures Now() == Progress(old(calls), false, [Exception(e)])
    {
      waiting := false;
      resolved := resolved + [Exception(e)];
    }
  }

  /** What an invocation that does not repeat the loop resolves the promise with. */
  function Verdict(a: Attempt): Outcome {
    match a
    case Produces(o) => o
    case Rejects(e) => Exception(e)
    case Raises(e) => Exception(e)
    case Never => Empty
  }

  predicate Repeats(a: Attempt) { a == Produces(Empty) }

  /** While the body resolves with empty results, it is invoked again and the promise stays open. */
  lemma {:induction false} LoopsWhileEmpty(body: Body, n: nat)
    requires forall i | 0 <= i < n :: Repeats(body(i))
    ensures After(body, n) ==
              if body(n).Raises? then Progress(n + 1, false, [Verdict(body(n))]) else Progress(n + 1, true, [])
  {
    if n > 0 {
      LoopsWhileEmpty(body, n - 1);
    }
  }

  /** If the first `k` invocations resolve with an empty result and the next one does not, the body is
      invoked exactly `k + 1` times, and the promise is resolved once with what that one resolved to,
      or not at all if it never resolves; nothing happens before or after. */
  lemma {:induction false} LoopRunsOnceMore(body: Body, k: nat, n: nat)
    requires (forall i | 0 <= i < k :: body(i) == Produces(Empty)) && body(k) != Produces(Empty)
    ensures n <= k ==> After(body, n).calls == n + 1
    ensures n < k ==> After(body, n).resolved == []
    ensures k < n ==>
              After(body, n) == match body(k)
                                case Produces(o) => Progress(k + 1, false, [o])
                                case Rejects(e) => Progress(k + 1, false, [Exception(e)])
                                case Raises(e) => Progress(k + 1, false, [Exception(e)])
                                case Never => Progress(k + 1, true, [])
    decreases n
  {
    if n <= k {
      LoopsWhileEmpty(body, n);
    } else if n == k + 1 {
      LoopsWhileEmpty(body, k);
    } else {
      LoopRunsOnceMore(body, k, n - 1);
      LoopStays(body, k, n - 1);
    }
  }

  lemma {:induction false} LoopStays(body: Body, k: nat, n: nat)
    requires (forall i | 0 <= i < k :: Repeats(body(i))) && !Repeats(body(k)) && k < n
    ensures Settled(body, After(body, n)) == After(body, n)
    decreases n
  {
    if n == k + 1 {
      LoopsWhileEmpty(body, k);
    } else {
      LoopStays(body, k, n - 1);
    }
  }

  // ---------------------------------------------------------------------------------------
  // The loop over a range
  // ---------------------------------------------------------------------------------------

  /** What the callable does for one value: its continuable completes, fails or never resolves, or the
      callable throws. */
  datatype Reaction = Completes | Fails(error: Error) | Hangs | Throws(error: Error)

  type Callable = int -> Reaction

  /** The type of begin and end: numbers as large as needed, or unsigned ones, which wrap around. */
  datatype Counter = Unbounded | Unsigned(size: nat)

  predicate Holds(c: Counter, i: int) { c.Unsigned? ==> 0 <= i < c.size }

  function Next(c: Counter, i: int): int { if c.Unsigned? && i + 1 == c.size then 0 else i + 1 }

  /** The value after `k` increments. */
  function ValueAt(c: Counter, begin: int, k: nat): int {
    if k == 0 then begin else Next(c, ValueAt(c, begin, k - 1))
  }

  /** Within one turn of the counter. */
  lemma {:induction false} ValueIs(c: Counter, begin: int, k: nat)
    requires Holds(c, begin) && (c.Unsigned? ==> k <= c.size)
    ensures ValueAt(c, begin, k) == if c.Unsigned? && begin + k >= c.size then begin + k - c.size else begin + k
  {
    if k > 0 {
      ValueIs(c, begin, k - 1);
    }
  }

  /** The looper: it is invoked with the current value, and its result handler increments that value and
      compares it with the end. */
  class RangeLooper {
    const callable: Callable
    const counter: Counter
    const end: int
    var begin: int
    ghost const first: int
    ghost var calls: nat

    ghost predicate Valid()
      reads this
    {
      begin == ValueAt(counter, first, calls)
    }

    constructor (callable: Callable, counter: Counter, begin: int, end: int)
      ensures Valid() && this.callable == callable && this.counter == counter && this.end == end
      ensures first == begin && calls == 0
    {
      this.callable, this.counter, this.end, this.begin := callable, counter, end, begin;
      first, calls := begin, 0;
    }

    /** One invocation, up to the point where the loop sees its resolution. */
    method Invoke() returns (a: Attempt)
      requires Valid()
      modifies this
      ensures a == RangeBody(callable, counter, first, end)(old(calls))
      ensures if callable(old(begin)).Completes? then Valid() && calls == old(calls) + 1
              else begin == old(begin) && calls == old(calls)
    {
      match callable(begin)
      case Completes =>
        begin := Next(counter, begin);
        calls := calls + 1;
        a := Produces(if begin != end then Empty else Value([]));
      case Fails(e) => a := Rejects(e);
      case Hangs => a := Never;
      case Throws(e) => a := Raises(e);
    }
  }

  /** The looper as a loop body, by the number of its invocation. */
  function RangeBody(callable: Callable, c: Counter, begin: int, end: int): Body {
    (k: nat) =>
      match callable(ValueAt(c, begin, k))
      case Completes => Produces(if ValueAt(c, begin, k + 1) != end then Empty else Value([]))
      case Fails(e) => Rejects(e)
      case Hangs => Never
      case Throws(e) => Raises(e)
  }

  /** `range_loop` over a range that is not empty: the callable is called for begin, begin + 1, ... up
      to the first value it does not complete for, or to end - 1; the promise is resolved once. */
  lemma RangeLoopVisitsRange(callable: Callable, c: Counter, begin: int, end: int, stop: int, n: nat)
    requires Holds(c, begin) && Holds(c, end)
    requires begin <= stop < end && (forall i | begin <= i < stop :: callable(i).Completes?)
    requires stop == end - 1 || !callable(stop).Completes?
    requires stop - begin < n
    ensures forall k | 0 <= k <= stop - begin :: ValueAt(c, begin, k) == begin + k
    ensures var p := After(RangeBody(callable, c, begin, end), n);
            && p.calls == stop - begin + 1
            && p.resolved == match callable(stop)
                             case Completes => [Value([])]
                             case Fails(e) => [Exception(e)]
                             case Throws(e) => [Exception(e)]
                             case Hangs => []
  {
    forall k | 0 <= k <= stop - begin ensures ValueAt(c, begin, k) == begin + k {
      ValueIs(c, begin, k);
    }
    var body := RangeBody(callable, c, begin, end);
    forall k | 0 <= k < stop - begin ensures Repeats(body(k)) {
      assert ValueAt(c, begin, k) == begin + k && ValueAt(c, begin, k + 1) == begin + (k + 1);
    }
    StopsThere(callable, c, begin, end, stop);
    LoopRunsOnceMore(body, stop - begin, n);
  }

  lemma StopsThere(callable: Callable, c: Counter, begin: int, end: int, stop: int)
    requires Holds(c, begin) && Holds(c, end) && begin <= stop < end
    requires stop == end - 1 || !callable(stop).Completes?
    ensures var a := RangeBody(callable, c, begin, end)(stop - begin);
            !Repeats(a) && a == match callable(stop)
                                case Completes => Produces(Value([]))
                                case Fails(e) => Rejects(e)
                                case Hangs => Never
                                case Throws(e) => Raises(e)
  {
    ValueIs(c, begin, stop - begin);
    ValueIs(c, begin, stop - begin + 1);
  }

  /** How many calls the loop makes before the incremented value meets the end, if it ever does. */
  function CallsUntilEnd(c: Counter, begin: int, end: int): Option<nat> {
    if begin < end then Some(end - begin)
    else if c.Unsigned? && begin - end <= c.size then Some(end - begin + c.size)
    else None
  }

  lemma RepeatsUntilEnd(callable: Callable, c: Counter, begin: int, end: int, k: nat)
    requires Holds(c, begin) && Holds(c, end) && forall i :: callable(i).Completes?
    requires var n := CallsUntilEnd(c, begin, end); n.Some? ==> k < n.value
    ensures var n, body := CallsUntilEnd(c, begin, end), RangeBody(callable, c, begin, end);
            if n.Some? && k == n.value - 1 then body(k) == Produces(Value([])) else Repeats(body(k))
  {
    ValueIs(c, begin, k + 1);
  }

  /** The callable is called before the comparison. So over an empty range, or one whose end lies before
      its begin, the loop goes on: without bounds it calls the callable for ever, and with unsigned
      numbers until these have wrapped around and come to the end from below. */
  lemma RangeLoopCalls(callable: Callable, c: Counter, begin: int, end: int, n: nat)
    requires Holds(c, begin) && Holds(c, end) && forall i :: callable(i).Completes?
    ensures var calls, p := CallsUntilEnd(c, begin, end), After(RangeBody(callable, c, begin, end), n);
            if calls.Some? && calls.value <= n then p == Progress(calls.value, false, [Value([])])
            else p == Progress(n + 1, true, [])
  {
    var calls, body := CallsUntilEnd(c, begin, end), RangeBody(callable, c, begin, end);
    if calls.Some? && calls.value <= n {
      var k := calls.value - 1;
      forall i | 0 <= i < k ensures Repeats(body(i)) {
        RepeatsUntilEnd(callable, c, begin, end, i);
      }
      RepeatsUntilEnd(callable, c, begin, end, k);
      LoopRunsOnceMore(body, k, n);
    } else {
      forall i | 0 <= i < n ensures Repeats(body(i)) {
        RepeatsUntilEnd(callable, c, begin, end, i);
      }
      RepeatsUntilEnd(callable, c, begin, end, n);
      LoopsWhileEmpty(body, n);
    }
  }

  /** When the loop over a range calls a callable that always completes for precisely the values of the
      range, and then resolves: if and only if begin < end. */
  lemma RangeLoopVisitsRangeIff(callable: Callable, c: Counter, begin: int, end: int)
    requires Holds(c, begin) && Holds(c, end) && forall i :: callable(i).Completes?
    ensures begin < end <==>
              exists n: nat :: var p := After(RangeBody(callable, c, begin, end), n);
                               p.resolved != [] && p.calls == end - begin
    ensures c.Unbounded? ==>
              (begin < end <==> exists n: nat :: After(RangeBody(callable, c, begin, end), n).resolved != [])
  {
    if begin < end {
      RangeLoopCalls(callable, c, begin, end, end - begin);
      var p := After(RangeBody(callable, c, begin, end), end - begin);
      assert p.resolved != [] && p.calls == end - begin;
    } else {
      forall n: nat ensures var p := After(RangeBody(callable, c, begin, end), n); p.resolved == [] || p.calls > 0
        ensures c.Unbounded? ==> After(RangeBody(callable, c, begin, end), n).resolved == []
      {
        RangeLoopCalls(callable, c, begin, end, n);
      }
    }
  }
}
