/** Chains of handlers. A chain is executed by passing callbacks on: every handler is wrapped into
    a callback that knows the next one, and the innermost continuation is invoked with the whole
    nest. The machine below does exactly that, one call at a time, with work items parked in
    executors; `Fold` says directly what a chain means. */
module Chaining {
  import opened Results

  /** What a handler may return instead of another continuable. */
  datatype Returned =
    | Void
    | Plain(value: Arg)                // any other type, and the content of a plain_tag
    | TupleLike(values: seq<Arg>)      // pairs and tuples
    | Stop                             // empty_result
    | Cancel                           // cancellation_result
    | Rethrow(error: Error)            // exceptional_result
    | AResult(outcome: Outcome)        // result<...>
    | Throws(error: Error)             // leaves the handler by a C++ exception

  /** The arguments that the enclosing handlers were called with, outermost first. */
  type Captures = seq<Outcome>

  /** A handler: an arbitrary function of its captures and its argument, unless it returns another
      continuable, which it then holds and which captures the argument. */
  datatype Body =
    | Return(f: (Captures, Outcome) -> Returned)
    | Continue(cont: Cont)
    | Choose(p: (Captures, Outcome) -> bool, yes: Body, no: Body)

  datatype Handler = Handler(id: nat, body: Body)

  /** then, fail and next. */
  datatype Kind = OnResult | OnError | OnBoth

  predicate Handles(kind: Kind, o: Outcome) {
    match o
    case Value(_) => kind != OnError
    case Exception(_) => kind != OnResult
    case Empty => false
  }

  /** What an executor does with the work item it is given: run it at some later point, resolve it
      with an exception instead, or destroy it. */
  datatype Fate = Run | Fail(error: Error) | Drop

  datatype Executor = ThisThread | Deferred(fate: Fate)

  /** A continuation. `Source` is an opaque one: when it is invoked something starts, and its
      callback is called with the outcome (never, if that is Empty). `Closure` is a continuable
      that was created under captures of its own. */
  datatype Cont =
    | Ready(f: Captures -> Outcome)
    | Source(id: nat, f: Captures -> Outcome)
    | Closure(env: Captures, cont: Cont)
    | Chained(inner: Cont, kind: Kind, handler: Handler, executor: Executor)

  datatype Event = Started(id: nat) | Handled(id: nat, arg: Outcome)

  // ---------------------------------------------------------------------------------------
  // The meaning of a chain
  // ---------------------------------------------------------------------------------------

  /** Everything a chain does, in order, and what it ends in. */
  datatype Meaning = Meaning(trace: seq<Event>, outcome: Outcome)

  /** What a returned value means to the rest of the chain. A failure handler that returns nothing
      ends the chain; a result handler that returns nothing passes on no values. */
  function Decorated(r: Returned, arg: Outcome): Outcome {
    match r
    case Void => if arg.Exception? then Empty else Value([])
    case Plain(v) => Value([v])
    case TupleLike(vs) => Value(vs)
    case Stop => Empty
    case Cancel => Exception(CANCELLATION)
    case Rethrow(e) => Exception(e)
    case AResult(o) => o
    case Throws(e) => Exception(e)
  }

  function Fold(c: Cont, env: Captures): Meaning
    decreases c, 0
  {
    match c
    case Ready(f) => Meaning([], f(env))
    case Source(id, f) => Meaning([Started(id)], f(env))
    case Closure(own, inner) => Fold(inner, own)
    case Chained(inner, kind, handler, executor) =>
      var m := Fold(inner, env);
      if !Handles(kind, m.outcome) then
        m
      else
        match executor
        case Deferred(Fail(e)) => Meaning(m.trace, Exception(e))
        case Deferred(Drop) => Meaning(m.trace, Empty)
        case _ =>
          var b := FoldBody(handler.body, env, m.outcome);
          Meaning(m.trace + [Handled(handler.id, m.outcome)] + b.trace, b.outcome)
  }

  function FoldBody(b: Body, env: Captures, arg: Outcome): Meaning
    decreases b, 1
  {
    match b
    case Return(f) => Meaning([], Decorated(f(env, arg), arg))
    case Continue(c) => Fold(c, env + [arg])
    case Choose(p, yes, no) => if p(env, arg) then FoldBody(yes, env, arg) else FoldBody(no, env, arg)
  }

  // ---------------------------------------------------------------------------------------
  // The machine
  // ---------------------------------------------------------------------------------------

  /** One callback of the nest: its handler, its executor and what the handler captured. */
  datatype Callback = Callback(kind: Kind, handler: Handler, executor: Executor, env: Captures)

  /** The nest of callbacks, outermost handler last; the final callback comes after all of them. */
  type Nest = seq<Callback>

  datatype Control =
    | Invoke(cont: Cont, env: Captures, nest: Nest)       // call a continuation with a callback
    | Call(arg: Outcome, nest: Nest)                      // call the outermost callback
    | Parked(cb: Callback, arg: Outcome, nest: Nest)      // a work item waits in an executor
    | Over                                                // nothing is left to call

  datatype State = State(control: Control, trace: seq<Event>, delivered: seq<Outcome>)

  predicate IsReady(c: Cont) {
    match c
    case Ready(_) => true
    case Closure(_, inner) => IsReady(inner)
    case _ => false
  }

  /** The result a ready continuation is unpacked to. */
  function Unpacked(c: Cont, env: Captures): Outcome
    requires IsReady(c)
  {
    match c
    case Ready(f) => f(env)
    case Closure(own, inner) => Unpacked(inner, own)
  }

  /** Passes an unpacked result to a callback, unless it is empty. */
  function CallWith(o: Outcome, nest: Nest): Control {
    if o.Empty? then Over else Call(o, nest)
  }

  /** The invoker chosen by the type a handler returns: which overload of the next callback is
      called, if any. `arg` tells whether the handler was called with an exception. */
  function Invoker(r: Returned, arg: Outcome, next: Nest): Control {
    match r
    case Void => if arg.Exception? then Over else Call(Value([]), next)
    case Plain(v) => Call(Value([v]), next)
    case TupleLike(vs) => Call(Value(vs), next)
    case Stop => Over
    case Cancel => Call(Exception(CANCELLATION), next)
    case Rethrow(e) => Call(Exception(e), next)
    case AResult(Value(vs)) => Call(Value(vs), next)
    case AResult(Exception(e)) => Call(Exception(e), next)
    case AResult(Empty) => Over
    case Throws(e) => Call(Exception(e), next)
  }

  function InvokeHandler(b: Body, env: Captures, arg: Outcome, next: Nest): Control {
    match b
    case Return(f) => Invoker(f(env, arg), arg, next)
    case Continue(c) => Invoke(c, env + [arg], next)
    case Choose(p, yes, no) =>
      if p(env, arg) then InvokeHandler(yes, env, arg, next) else InvokeHandler(no, env, arg, next)
  }

  /** Runs the handler of a callback now. */
  function RunHandler(s: State, cb: Callback, arg: Outcome, next: Nest): State {
    State(InvokeHandler(cb.handler.body, cb.env, arg, next), s.trace + [Handled(cb.handler.id, arg)], s.delivered)
  }

  function Step(s: State): State {
    match s.control
    case Invoke(Ready(f), env, nest) => s.(control := CallWith(f(env), nest))
    case Invoke(Source(id, f), env, nest) =>
      s.(control := CallWith(f(env), nest), trace := s.trace + [Started(id)])
    case Invoke(Closure(own, inner), _, nest) => s.(control := Invoke(inner, own, nest))
    case Invoke(Chained(inner, kind, handler, executor), env, nest) =>
      var nest' := [Callback(kind, handler, executor, env)] + nest;
      // A ready continuation is not invoked: its result goes to the callback directly.
      s.(control := if IsReady(inner) then CallWith(Unpacked(inner, env), nest') else Invoke(inner, env, nest'))
    case Call(arg, nest) =>
      if nest == [] then
        State(Over, s.trace, s.delivered + [arg])
      else
        var cb := nest[0];
        if !Handles(cb.kind, arg) then s.(control := Call(arg, nest[1..]))
        else if cb.executor.ThisThread? then RunHandler(s, cb, arg, nest[1..])
        else s.(control := Parked(cb, arg, nest[1..]))
    case Parked(cb, arg, nest) =>
      (match cb.executor
       case Deferred(Fail(e)) => s.(control := Call(Exception(e), nest))
       case Deferred(Drop) => s.(control := Over)
       case _ => RunHandler(s, cb, arg, nest))
    case Over => s
  }

  function Steps(s: State, n: nat): State
    decreases n
  {
    if n == 0 then s else Steps(Step(s), n - 1)
  }

  /** The start of a chain which is invoked with the final callback. */
  function Start(c: Cont, env: Captures): State {
    State(Invoke(c, env, []), [], [])
  }

  function Deliveries(o: Outcome): seq<Outcome> {
    if o.Empty? then [] else [o]
  }

  // ---------------------------------------------------------------------------------------
  // The machine computes the meaning
  // ---------------------------------------------------------------------------------------

  lemma {:induction false} StepsCompose(s: State, m: nat, n: nat)
    ensures Steps(s, m + n) == Steps(Steps(s, m), n)
    decreases m
  {
    if m > 0 {
      StepsCompose(Step(s), m - 1, n);
    }
  }

  /** The state in which a meaning has been delivered to the nest. */
  ghost function Reached(s: State, m: Meaning, nest: Nest): State {
    State(CallWith(m.outcome, nest), s.trace + m.trace, s.delivered)
  }

  lemma {:induction false} ReadyMeaning(c: Cont, env: Captures)
    requires IsReady(c)
    ensures Fold(c, env) == Meaning([], Unpacked(c, env))
    decreases c
  {
    if c.Closure? {
      ReadyMeaning(c.cont, c.env);
    }
  }

  /** Invoking a continuation with any nest of callbacks ends, after some number of steps, in
      calling the nest with the outcome of the fold, or in calling nothing if it is empty. */
  lemma {:induction false} InvokeReachesFold(s: State, c: Cont, env: Captures, nest: Nest) returns (n: nat)
    requires s.control == Invoke(c, env, nest)
    ensures Steps(s, n) == Reached(s, Fold(c, env), nest)
    decreases c, 0
  {
    match c
    case Ready(f) =>
      n := 1;
      assert Steps(s, 1) == Step(s);
      assert s.trace + [] == s.trace;
    case Source(id, f) =>
      n := 1;
      assert Steps(s, 1) == Step(s);
    case Closure(own, inner) =>
      var k := InvokeReachesFold(Step(s), inner, own, nest);
      n := 1 + k;
    case Chained(inner, kind, handler, executor) =>
      var cb := Callback(kind, handler, executor, env);
      var m := Fold(inner, env);
      var k := InnerReachesFold(s, c, env, nest);
      var s' := Steps(s, k);
      var j := CallbackReachesFold(s', cb, m.outcome, nest);
      StepsCompose(s, k, j);
      n := k + j;
      var r := Fold(c, env);
      if Handles(kind, m.outcome) && executor in {ThisThread, Deferred(Run)} {
        var b := FoldBody(handler.body, env, m.outcome);
        assert s.trace + (m.trace + [Handled(handler.id, m.outcome)] + b.trace)
            == s.trace + m.trace + [Handled(handler.id, m.outcome)] + b.trace;
      }
  }

  /** The inner continuation of a chain reaches the new callback, through the ready shortcut as
      well as through its own invocation. */
  lemma {:induction false} InnerReachesFold(s: State, c: Cont, env: Captures, nest: Nest) returns (n: nat)
    requires c.Chained? && s.control == Invoke(c, env, nest)
    ensures Steps(s, n) == Reached(s, Fold(c.inner, env), [Callback(c.kind, c.handler, c.executor, env)] + nest)
    decreases c.inner, 3
  {
    var nest' := [Callback(c.kind, c.handler, c.executor, env)] + nest;
    if IsReady(c.inner) {
      ReadyMeaning(c.inner, env);
      assert s.trace + [] == s.trace;
      assert Steps(s, 1) == Step(s);
      n := 1;
    } else {
      var k := InvokeReachesFold(Step(s), c.inner, env, nest');
      n := 1 + k;
    }
  }

  /** Invoking a ready continuation with a callback ends where unpacking it and calling the callback
      directly begins. */
  lemma ReadyShortcutAgrees(s: State, c: Cont, env: Captures, nest: Nest) returns (n: nat)
    requires IsReady(c) && s.control == Invoke(c, env, nest)
    ensures Steps(s, n) == s.(control := CallWith(Unpacked(c, env), nest))
  {
    n := InvokeReachesFold(s, c, env, nest);
    ReadyMeaning(c, env);
    assert s.trace + [] == s.trace;
  }

  /** What one callback makes of an outcome. */
  ghost function Behind(cb: Callback, arg: Outcome): Meaning {
    if !Handles(cb.kind, arg) then Meaning([], arg)
    else
      match cb.executor
      case Deferred(Fail(e)) => Meaning([], Exception(e))
      case Deferred(Drop) => Meaning([], Empty)
      case _ =>
        var b := FoldBody(cb.handler.body, cb.env, arg);
        Meaning([Handled(cb.handler.id, arg)] + b.trace, b.outcome)
  }

  lemma {:induction false} CallbackReachesFold(s: State, cb: Callback, arg: Outcome, nest: Nest) returns (n: nat)
    requires s.control == CallWith(arg, [cb] + nest)
    ensures Steps(s, n) == Reached(s, Behind(cb, arg), nest)
    decreases cb.handler, 0
  {
    assert s.trace + [] == s.trace;
    if arg.Empty? {
      n := 0;
    } else {
      assert ([cb] + nest)[1..] == nest;
      assert Steps(s, 1) == Step(s) && Steps(s, 2) == Steps(Step(s), 1) == Step(Step(s));
      if !Handles(cb.kind, arg) {
        n := 1;
      } else if cb.executor.ThisThread? {
        var k := HandlerReachesFold(s, Step(s), cb, arg, nest);
        n := 1 + k;
      } else {
        if cb.executor.fate.Run? {
          var k := HandlerReachesFold(s, Step(Step(s)), cb, arg, nest);
          StepsCompose(s, 2, k);
          n := 2 + k;
        } else {
          n := 2;
        }
      }
    }
  }

  lemma {:induction false} HandlerReachesFold(s: State, t: State, cb: Callback, arg: Outcome, nest: Nest)
    returns (n: nat)
    requires !arg.Empty? && t == RunHandler(s, cb, arg, nest)
    ensures var b := FoldBody(cb.handler.body, cb.env, arg);
            Steps(t, n) == Reached(s, Meaning([Handled(cb.handler.id, arg)] + b.trace, b.outcome), nest)
    decreases cb.handler.body, 3
  {
    n := BodyReachesFold(t, cb.handler.body, cb.env, arg, nest);
    var b := FoldBody(cb.handler.body, cb.env, arg);
    assert s.trace + ([Handled(cb.handler.id, arg)] + b.trace) == s.trace + [Handled(cb.handler.id, arg)] + b.trace;
  }

  lemma {:induction false} BodyReachesFold(t: State, b: Body, env: Captures, arg: Outcome, nest: Nest) returns (n: nat)
    requires !arg.Empty? && t.control == InvokeHandler(b, env, arg, nest)
    ensures Steps(t, n) == Reached(t, FoldBody(b, env, arg), nest)
    decreases b, 2
  {
    match b
    case Return(f) =>
      n := 0;
      assert t.trace + [] == t.trace;
    case Continue(c) =>
      n := InvokeReachesFold(t, c, env + [arg], nest);
    case Choose(p, yes, no) =>
      n := BodyReachesFold(t, if p(env, arg) then yes else no, env, arg, nest);
  }

  /** A chain of any shape and length, invoked with the final callback, delivers exactly the fold of
      its handlers: once, or not at all if the fold is empty. From some step on the state never
      changes again, so no second delivery can follow. */
  lemma ChainDeliversFold(c: Cont, env: Captures) returns (n: nat)
    ensures var m := Fold(c, env);
            forall k :: n <= k ==> Steps(Start(c, env), k) == State(Over, m.trace, Deliveries(m.outcome))
  {
    var s := Start(c, env);
    var m := Fold(c, env);
    var k := InvokeReachesFold(s, c, env, []);
    assert [] + m.trace == m.trace;
    StepsCompose(s, k, 1);
    assert Steps(Steps(s, k), 1) == Step(Steps(s, k));
    n := k + 1;
    forall j | n <= j
      ensures Steps(s, j) == State(Over, m.trace, Deliveries(m.outcome))
    {
      StepsCompose(s, n, j - n);
      OverStays(Steps(s, n), j - n);
    }
  }

  lemma {:induction false} OverStays(s: State, n: nat)
    requires s.control.Over?
    ensures Steps(s, n) == s
  {
    if n > 0 {
      OverStays(s, n - 1);
    }
  }

  /** At no step of any chain has more than one outcome been delivered. */
  lemma {:induction false} DeliveredAtMostOnce(s: State, n: nat)
    requires |s.delivered| == 0 || (|s.delivered| == 1 && s.control.Over?)
    ensures |Steps(s, n).delivered| <= 1
    decreases n
  {
    if n > 0 {
      DeliveredAtMostOnce(Step(s), n - 1);
    }
  }

  // ---------------------------------------------------------------------------------------
  // One handler more
  // ---------------------------------------------------------------------------------------

  /** What a continuation without handlers does: a ready one delivers its result, any other one is started
      once and delivers what it resolves to, if it does. */
  lemma LeafRuns(c: Cont, env: Captures, k: nat)
    requires (c.Ready? || c.Source?) && 2 <= k
    ensures var s, o := Steps(Start(c, env), k), c.f(env);
            && s.control.Over? && s.trace == (if c.Source? then [Started(c.id)] else [])
            && s.delivered == if o.Empty? then [] else [o]
  {
    var t := Start(c, env);
    StepsCompose(t, 2, k - 2);
    assert Steps(t, 2) == Steps(Step(t), 1) == Step(Step(t));
    OverStays(Steps(t, 2), k - 2);
  }

  /** Adding a handler to a chain, seen from the end of the execution: `s` is that of the chain without it.
      The handler is called with what was delivered there, after everything that happened there, exactly
      if it is a `then` and that is a result, a `fail` and that is an exception, or a `next`. If it is not
      called nothing changes. If its work item is failed or dropped that is what the chain ends in. */
  lemma HandlerIsCalled(c: Cont, env: Captures) returns (n: nat)
    requires c.Chained?
    ensures forall k :: n <= k ==>
              var s, t := Steps(Start(c.inner, env), k), Steps(Start(c, env), k);
              && s.control.Over? && t.control.Over? && |s.delivered| <= 1
              && if s.delivered != [] && (c.kind.OnBoth? || (c.kind.OnResult? && s.delivered[0].Value?)
                                          || (c.kind.OnError? && s.delivered[0].Exception?)) then
                   match c.executor
                   case Deferred(Fail(e)) => t.trace == s.trace && t.delivered == [Exception(e)]
                   case Deferred(Drop) => t.trace == s.trace && t.delivered == []
                   case _ => s.trace + [Handled(c.handler.id, s.delivered[0])] <= t.trace
                 else
                   t == s
  {
    var i := ChainDeliversFold(c.inner, env);
    var j := ChainDeliversFold(c, env);
    n := if i < j then j else i;
  }

  /** What the chain delivers after a handler that returns no continuable was called with `arg`. */
  lemma ReturnedValueIsDelivered(c: Cont, env: Captures, arg: Outcome) returns (n: nat)
    requires c.Chained? && c.handler.body.Return? && (c.executor.ThisThread? || c.executor.fate.Run?)
    requires Fold(c.inner, env).outcome == arg
    requires || (c.kind == OnResult && arg.Value?) || (c.kind == OnError && arg.Exception?)
             || (c.kind == OnBoth && !arg.Empty?)
    ensures forall k :: n <= k ==>
              var s, t := Steps(Start(c.inner, env), k), Steps(Start(c, env), k);
              && s.delivered == [arg] && t.trace == s.trace + [Handled(c.handler.id, arg)]
              && match c.handler.body.f(env, arg)
                 case Void => t.delivered == if arg.Exception? then [] else [Value([])]
                 case Plain(v) => t.delivered == [Value([v])]
                 case TupleLike(vs) => t.delivered == [Value(vs)]
                 case Stop => t.delivered == []
                 case Cancel => t.delivered == [Exception(CANCELLATION)]
                 case Rethrow(e) => t.delivered == [Exception(e)]
                 case AResult(o) => t.delivered == if o.Empty? then [] else [o]
                 case Throws(e) => t.delivered == [Exception(e)]
  {
    var i := ChainDeliversFold(c.inner, env);
    var j := ChainDeliversFold(c, env);
    n := if i < j then j else i;
    var m := Fold(c.inner, env);
    assert m.trace + [Handled(c.handler.id, arg)] + [] == m.trace + [Handled(c.handler.id, arg)];
  }

  /** After a handler that returns a continuable the chain goes on as that one, with the argument captured. */
  lemma ReturnedContinuableGoesOn(c: Cont, env: Captures, arg: Outcome) returns (n: nat)
    requires c.Chained? && c.handler.body.Continue? && (c.executor.ThisThread? || c.executor.fate.Run?)
    requires Fold(c.inner, env).outcome == arg
    requires || (c.kind == OnResult && arg.Value?) || (c.kind == OnError && arg.Exception?)
             || (c.kind == OnBoth && !arg.Empty?)
    ensures forall k :: n <= k ==>
              var s, t := Steps(Start(c.inner, env), k), Steps(Start(c, env), k);
              var u := Steps(Start(c.handler.body.cont, env + [arg]), k);
              && s.delivered == [arg] && t.delivered == u.delivered
              && t.trace == s.trace + [Handled(c.handler.id, arg)] + u.trace
  {
    var i := ChainDeliversFold(c.inner, env);
    var j := ChainDeliversFold(c, env);
    var l := ChainDeliversFold(c.handler.body.cont, env + [arg]);
    n := i + j + l;
  }

  /** A continuable that was created under captures of its own runs under those, wherever it is invoked. */
  lemma ClosureKeepsItsCaptures(c: Cont, env: Captures) returns (n: nat)
    requires c.Closure?
    ensures forall k :: n <= k ==> Steps(Start(c, env), k) == Steps(Start(c.cont, c.env), k)
  {
    var i := ChainDeliversFold(c, env);
    var j := ChainDeliversFold(c.cont, c.env);
    n := i + j;
  }

  /** A handler that decides by its argument goes on as the body it chose. */
  lemma ChosenBodyRuns(c: Cont, env: Captures, arg: Outcome) returns (n: nat)
    requires c.Chained? && c.handler.body.Choose? && Fold(c.inner, env).outcome == arg
    ensures var b := if c.handler.body.p(env, arg) then c.handler.body.yes else c.handler.body.no;
            var chosen := c.(handler := Handler(c.handler.id, b));
            forall k :: n <= k ==> Steps(Start(c, env), k) == Steps(Start(chosen, env), k)
  {
    var b := if c.handler.body.p(env, arg) then c.handler.body.yes else c.handler.body.no;
    var i := ChainDeliversFold(c, env);
    var j := ChainDeliversFold(c.(handler := Handler(c.handler.id, b)), env);
    n := i + j;
  }

  // ---------------------------------------------------------------------------------------
  // Executors
  // ---------------------------------------------------------------------------------------

  /** The same chain on the current thread only. A handler whose work item will be run stays as it
      is; one whose work item will be failed rethrows that exception; one whose work item will be
      dropped stops the chain. */
  function Immediate(c: Cont): Cont
    decreases c, 0
  {
    match c
    case Chained(inner, kind, handler, executor) =>
      var body := match executor
        case Deferred(Fail(e)) => Return((_, _) => Rethrow(e))
        case Deferred(Drop) => Return((_, _) => Stop)
        case _ => ImmediateBody(handler.body);
      Chained(Immediate(inner), kind, Handler(handler.id, body), ThisThread)
    case Closure(own, inner) => Closure(own, Immediate(inner))
    case _ => c
  }

  function ImmediateBody(b: Body): Body
    decreases b, 1
  {
    match b
    case Return(_) => b
    case Continue(c) => Continue(Immediate(c))
    case Choose(p, yes, no) => Choose(p, ImmediateBody(yes), ImmediateBody(no))
  }

  lemma {:induction false} ImmediateHasSameOutcome(c: Cont, env: Captures)
    ensures Fold(Immediate(c), env).outcome == Fold(c, env).outcome
    decreases c, 0
  {
    match c
    case Chained(inner, kind, handler, executor) =>
      ImmediateHasSameOutcome(inner, env);
      ImmediateBodyHasSameOutcome(handler.body, env, Fold(inner, env).outcome);
    case Closure(own, inner) => ImmediateHasSameOutcome(inner, own);
    case _ =>
  }

  lemma {:induction false} ImmediateBodyHasSameOutcome(b: Body, env: Captures, arg: Outcome)
    ensures FoldBody(ImmediateBody(b), env, arg).outcome == FoldBody(b, env, arg).outcome
    decreases b, 1
  {
    match b
    case Return(_) =>
    case Continue(c) => ImmediateHasSameOutcome(c, env + [arg]);
    case Choose(p, yes, no) =>
      ImmediateBodyHasSameOutcome(yes, env, arg);
      ImmediateBodyHasSameOutcome(no, env, arg);
  }

  /** Whether all work items of a chain are run, and whether there are none. */
  predicate AllRun(c: Cont, deferred: bool)
    decreases c, 0
  {
    match c
    case Chained(inner, _, handler, executor) =>
      AllRun(inner, deferred) && AllRunIn(handler.body, deferred)
      && (executor.ThisThread? || (deferred && executor.fate.Run?))
    case Closure(_, inner) => AllRun(inner, deferred)
    case _ => true
  }

  predicate AllRunIn(b: Body, deferred: bool)
    decreases b, 1
  {
    match b
    case Return(_) => true
    case Continue(c) => AllRun(c, deferred)
    case Choose(_, yes, no) => AllRunIn(yes, deferred) && AllRunIn(no, deferred)
  }

  /** The chain on the current thread has no work items; if those of the original are all run, both run the
      same handlers in the same order. */
  lemma {:induction false} ImmediateRunsTheSame(c: Cont, env: Captures)
    ensures AllRun(Immediate(c), false)
    ensures AllRun(c, true) ==> Fold(Immediate(c), env) == Fold(c, env)
    decreases c, 0
  {
    match c
    case Chained(inner, kind, handler, executor) =>
      ImmediateRunsTheSame(inner, env);
      ImmediateBodyRunsTheSame(handler.body, env, Fold(inner, env).outcome);
    case Closure(own, inner) => ImmediateRunsTheSame(inner, own);
    case _ =>
  }

  lemma {:induction false} ImmediateBodyRunsTheSame(b: Body, env: Captures, arg: Outcome)
    ensures AllRunIn(ImmediateBody(b), false)
    ensures AllRunIn(b, true) ==> FoldBody(ImmediateBody(b), env, arg) == FoldBody(b, env, arg)
    decreases b, 1
  {
    match b
    case Return(_) =>
    case Continue(c) => ImmediateRunsTheSame(c, env + [arg]);
    case Choose(p, yes, no) =>
      ImmediateBodyRunsTheSame(yes, env, arg);
      ImmediateBodyRunsTheSame(no, env, arg);
  }

  /** Several chains at work at once; `schedule` says which one makes the next step, so that parked
      work items of different chains run in any order. */
  function Scheduled(chains: seq<State>, schedule: seq<nat>): (r: seq<State>)
    requires forall k | 0 <= k < |schedule| :: schedule[k] < |chains|
    ensures |r| == |chains|
    decreases |schedule|
  {
    if schedule == [] then chains
    else Scheduled(chains[schedule[0] := Step(chains[schedule[0]])], schedule[1..])
  }

  function Turns(schedule: seq<nat>, i: nat): nat {
    if schedule == [] then 0 else (if schedule[0] == i then 1 else 0) + Turns(schedule[1..], i)
  }

  lemma {:induction false} ChainsRunIndependently(chains: seq<State>, schedule: seq<nat>, i: nat)
    requires forall k | 0 <= k < |schedule| :: schedule[k] < |chains|
    requires i < |chains|
    ensures Scheduled(chains, schedule)[i] == Steps(chains[i], Turns(schedule, i))
    decreases |schedule|
  {
    if schedule != [] {
      ChainsRunIndependently(chains[schedule[0] := Step(chains[schedule[0]])], schedule[1..], i);
    }
  }

  /** Any number of chains under any schedule, with work items deferred to any later step: a chain
      that gets enough turns delivers what it delivers on the current thread alone. */
  lemma {:induction false} DeferredEqualsImmediate(conts: seq<Cont>, env: Captures, i: nat) returns (n: nat)
    requires i < |conts|
    ensures forall schedule: seq<nat> ::
              (forall k | 0 <= k < |schedule| :: schedule[k] < |conts|) && n <= Turns(schedule, i) ==>
                var s := Scheduled(StartAll(conts, env), schedule)[i];
                s.control.Over? && s.delivered == Deliveries(Fold(Immediate(conts[i]), env).outcome)
  {
    ImmediateHasSameOutcome(conts[i], env);
    n := ChainDeliversFold(conts[i], env);
    forall schedule: seq<nat> | (forall k | 0 <= k < |schedule| :: schedule[k] < |conts|) && n <= Turns(schedule, i)
      ensures var s := Scheduled(StartAll(conts, env), schedule)[i];
              s.control.Over? && s.delivered == Deliveries(Fold(Immediate(conts[i]), env).outcome)
    {
      ChainsRunIndependently(StartAll(conts, env), schedule, i);
    }
  }

  function StartAll(conts: seq<Cont>, env: Captures): seq<State> {
    seq(|conts|, k requires 0 <= k < |conts| => Start(conts[k], env))
  }
}
