/** Awaiting continuables from a coroutine. The suspending side and the completing side meet in one
    atomic with three states; a continuable may be ready, may resolve while it is being started on the
    stack of the coroutine, or at any time on another thread. In every interleaving the coroutine sees
    what a direct execution would see, and its resumptions never nest. */
module Coroutine {
  import opened Results

  /** A continuable that is awaited, with what it resolves to (Empty: never). */
  datatype Awaited = Awaited(ready: bool, outcome: Outcome)

  /** The next thing a coroutine does, after the outcomes it has seen so far: await something, or
      return (by a value or by an exception that leaves its body). */
  datatype Move = Await(on: Awaited) | Return(result: Outcome)

  type Program = seq<Outcome> -> Move

  /** The atomic of an awaitable. */
  datatype Atomic = Suspended | Pending | Resolved

  /** Where the coroutine is: in its body; in `await_suspend`, inside the invocation of the continuable
      or before its exchange; suspended; or finished. */
  datatype Body = Running | Starting | Exchanging | Parked | Ended

  /** Where the callback attached to the continuable is. */
  datatype Callback = Absent | Outstanding | Stored | MustResume | Over

  /** How the coroutine went on after an await. */
  datatype Hop = ByReady | ByReturn | ByResume

  datatype State = State(
    seen: seq<Outcome>,         // what the awaits returned or threw
    body: Body,
    atomic: Atomic,
    result: Outcome,
    callback: Callback,
    inPlace: bool,              // the callback runs on the stack of the coroutine
    depth: nat,                 // activations of resume on the stack the coroutine runs on
    hops: seq<Hop>,
    promise: seq<Outcome>)      // resolutions of the coroutine's own promise

  function Init(): State {
    State([], Running, Pending, Empty, Absent, false, 1, [], [])
  }

  datatype Action =
    | Advance               // the body runs up to its next await or to its end
    | Invoke                // next(...).done() invokes the continuable
    | ReturnFromDone        // the invocation returns
    | CallInPlace           // the callback is called on the coroutine's stack
    | CallElsewhere         // the callback is called by another thread
    | CallbackExchange      // the callback publishes the result
    | CallbackResume        // the callback resumes the coroutine
    | SuspendExchange       // await_suspend publishes the suspension

  /** The continuable the coroutine is awaiting. */
  function Current(p: Program, s: State): Awaited {
    match p(s.seen) case Await(a) => a case Return(_) => Awaited(false, Empty)
  }

  /** `await_ready`, once the awaitable was constructed. */
  predicate IsReady(on: Awaited) { on.ready && !on.outcome.Empty? }

  predicate Enabled(p: Program, s: State, a: Action) {
    match a
    case Advance => s.body.Running?
    case Invoke => s.body.Starting? && s.callback.Absent?
    case ReturnFromDone => s.body.Starting? && !s.callback.Absent? && !s.inPlace
    case CallInPlace => s.body.Starting? && s.callback.Outstanding? && !Current(p, s).outcome.Empty?
    case CallElsewhere => s.callback.Outstanding? && !Current(p, s).outcome.Empty?
    case CallbackExchange => s.callback.Stored?
    case CallbackResume => s.callback.MustResume?
    case SuspendExchange => s.body.Exchanging?
  }

  /** `await_resume`: the coroutine goes on with the stored result. */
  function GoOn(s: State, hop: Hop): State {
    s.(seen := s.seen + [s.result], body := Running, hops := s.hops + [hop])
  }

  function Step(p: Program, s: State, a: Action): State
    requires Enabled(p, s, a)
  {
    match a
    case Advance =>
      (match p(s.seen)
       case Return(r) => s.(body := Ended, promise := s.promise + [r], depth := if s.depth == 0 then 0 else s.depth - 1)
       case Await(on) =>
         var next := s.(atomic := Pending, callback := Absent, inPlace := false);
         if IsReady(on) then GoOn(next.(result := on.outcome), ByReady)
         else next.(result := Empty, body := Starting))
    case Invoke => s.(callback := Outstanding)
    case ReturnFromDone => s.(body := Exchanging)
    case CallInPlace => s.(result := Current(p, s).outcome, callback := Stored, inPlace := true)
    case CallElsewhere => s.(result := Current(p, s).outcome, callback := Stored, inPlace := false)
    case CallbackExchange =>
      var t := s.(atomic := Resolved);
      if s.atomic.Suspended? then t.(callback := MustResume) else t.(callback := Over, inPlace := false)
    case CallbackResume =>
      // On the coroutine's own stack this would nest; on another one it starts from the bottom.
      GoOn(s.(callback := Over, inPlace := false, depth := if s.inPlace then s.depth + 1 else 1), ByResume)
    case SuspendExchange =>
      var t := s.(atomic := Suspended);
      if s.atomic.Resolved? then GoOn(t, ByReturn)
      else t.(body := Parked, depth := if s.depth == 0 then 0 else s.depth - 1)
  }

  function Run(p: Program, actions: seq<Action>): Option<State> {
    if actions == [] then Some(Init())
    else
      match Run(p, actions[..|actions| - 1])
      case None => None
      case Some(s) => if Enabled(p, s, actions[|actions| - 1]) then Some(Step(p, s, actions[|actions| - 1])) else None
  }

  /** The direct execution: what the first `n` awaits yield, one after another. */
  function Direct(p: Program, n: nat): seq<Outcome> {
    if n == 0 then []
    else
      var seen := Direct(p, n - 1);
      match p(seen) case Await(on) => seen + [on.outcome] case Return(_) => seen
  }

  /** The await number `i` of the program finds a ready continuable. */
  predicate ReadyAt(p: Program, i: nat) {
    match p(Direct(p, i)) case Await(on) => IsReady(on) case Return(_) => false
  }

  ghost predicate Inv(p: Program, s: State) {
    && s.seen == Direct(p, |s.seen|) && |s.hops| == |s.seen|
    && (forall i | 0 <= i < |s.hops| :: s.hops[i].ByReady? <==> ReadyAt(p, i))
    && (s.body.Ended? ==> p(s.seen).Return?)
    && s.promise == (if s.body.Ended? then [p(s.seen).result] else [])
    && s.depth == (if s.body.Parked? || s.body.Ended? then 0 else 1)
    && match s.body
       case Running => (s.callback.Absent? || s.callback.Over?) && !s.inPlace
       case Ended => (s.callback.Absent? || s.callback.Over?) && !s.inPlace
       case _ =>
         && p(s.seen).Await? && !IsReady(Current(p, s))
         && s.result == (if s.callback.Absent? || s.callback.Outstanding? then Empty else Current(p, s).outcome)
         && (s.result.Empty? ==> s.callback.Absent? || s.callback.Outstanding?)
         && (s.inPlace ==> s.body.Starting? && s.callback.Stored?)
         && (s.callback.Over? <==> s.atomic.Resolved? && !s.body.Parked?)
         && (s.body.Parked? ==>
               || (s.atomic.Suspended? && (s.callback.Outstanding? || s.callback.Stored?))
               || (s.atomic.Resolved? && s.callback.MustResume?))
         && (!s.body.Parked? ==> !s.atomic.Suspended? && !s.callback.MustResume?)
         && (s.body.Exchanging? ==> !s.callback.Absent?)
  }

  lemma StepPreservesInv(p: Program, s: State, a: Action)
    requires Inv(p, s) && Enabled(p, s, a)
    ensures Inv(p, Step(p, s, a))
  {
    var t := Step(p, s, a);
    if |t.seen| == |s.seen| + 1 {
      assert t.seen[..|s.seen|] == s.seen;
      assert Direct(p, |s.seen| + 1) == s.seen + [Current(p, s).outcome];
    }
  }

  lemma {:induction false} RunKeepsInv(p: Program, actions: seq<Action>)
    requires Run(p, actions).Some?
    ensures Inv(p, Run(p, actions).value)
    decreases |actions|
  {
    if actions != [] {
      RunKeepsInv(p, actions[..|actions| - 1]);
      StepPreservesInv(p, Run(p, actions[..|actions| - 1]).value, actions[|actions| - 1]);
    }
  }

  /** What the assertions of the awaitable demand, and what resuming a coroutine demands: a callback
      finds no result yet; the coroutine is only resumed while it is suspended, and by a callback that
      does not run on its own stack; and it only goes on from a suspension point once the result is
      written. */
  lemma HandOffIsSafe(p: Program, actions: seq<Action>, a: Action)
    requires Run(p, actions).Some? && Enabled(p, Run(p, actions).value, a)
    ensures var s := Run(p, actions).value;
            && (a.CallInPlace? || a.CallElsewhere? ==> s.result.Empty?)
            && (a.CallbackResume? ==> s.body.Parked? && !s.inPlace && s.depth == 0)
            && (!a.Advance? && Step(p, s, a).body.Running? ==> s.result == Current(p, s).outcome && !s.result.Empty?)
  {
    RunKeepsInv(p, actions);
  }

  /** Every interleaving: the awaits yield what a direct execution yields, exactly those of a ready
      continuable go on without a suspension point, no resumption ever runs inside another one, whatever
      the number of awaits, and the promise of the coroutine is resolved at most once, with what the
      program returns. */
  lemma AwaitsAreDirect(p: Program, actions: seq<Action>)
    requires Run(p, actions).Some?
    ensures var s := Run(p, actions).value;
            && s.seen == Direct(p, |s.seen|)
            && |s.hops| == |s.seen| && (forall i | 0 <= i < |s.hops| :: s.hops[i].ByReady? <==> ReadyAt(p, i))
            && s.depth <= 1
            && |s.promise| <= 1
            && (s.promise != [] ==> p(s.seen) == Return(s.promise[0]))
  {
    RunKeepsInv(p, actions);
  }

  lemma {:induction false} DirectIsShort(p: Program, n: nat)
    ensures |Direct(p, n)| <= n
  {
    if n > 0 {
      DirectIsShort(p, n - 1);
    }
  }

  lemma {:induction false} DirectGrows(p: Program, n: nat, i: nat)
    requires i < n && |Direct(p, n)| == n
    ensures Direct(p, n)[..i] == Direct(p, i)
    ensures p(Direct(p, i)).Await? && Direct(p, n)[i] == p(Direct(p, i)).on.outcome
  {
    DirectIsShort(p, n - 1);
    if i < n - 1 {
      DirectGrows(p, n - 1, i);
      assert Direct(p, n)[..i] == Direct(p, n - 1)[..i];
    }
  }

  /** Every interleaving, await by await: each one is what the program does after the outcomes before it and
      yields what its own continuable resolves to, at once exactly if that one is ready and holds something;
      when the coroutine has finished, its promise was resolved once, with what the program returns. */
  lemma EachAwaitYieldsItsOutcome(p: Program, actions: seq<Action>)
    requires Run(p, actions).Some?
    ensures var s := Run(p, actions).value;
            && |s.hops| == |s.seen|
            && (forall i | 0 <= i < |s.seen| ::
                  var move := p(s.seen[..i]);
                  && move.Await? && s.seen[i] == move.on.outcome
                  && (s.hops[i].ByReady? <==> move.on.ready && !move.on.outcome.Empty?))
            && s.promise == if s.body.Ended? && p(s.seen).Return? then [p(s.seen).result] else []
  {
    RunKeepsInv(p, actions);
    var s := Run(p, actions).value;
    forall i | 0 <= i < |s.seen|
      ensures s.seen[..i] == Direct(p, i) && p(s.seen[..i]).Await? && s.seen[i] == p(s.seen[..i]).on.outcome
    {
      DirectGrows(p, |s.seen|, i);
    }
  }

  /** No lost resumption: as long as the coroutine has not finished, some step is possible, unless it
      waits for a continuable that never resolves. */
  lemma NeverStuck(p: Program, actions: seq<Action>)
    requires Run(p, actions).Some?
    ensures var s := Run(p, actions).value;
            || s.body.Ended?
            || (s.body.Parked? && s.callback.Outstanding? && Current(p, s).outcome.Empty?)
            || exists a :: Enabled(p, s, a)
  {
    RunKeepsInv(p, actions);
    var s := Run(p, actions).value;
    match s.body
    case Running => assert Enabled(p, s, Advance);
    case Starting =>
      if s.callback.Absent? {
        assert Enabled(p, s, Invoke);
      } else if s.inPlace {
        assert Enabled(p, s, CallbackExchange);
      } else {
        assert Enabled(p, s, ReturnFromDone);
      }
    case Exchanging => assert Enabled(p, s, SuspendExchange);
    case Parked =>
      if s.callback.MustResume? {
        assert Enabled(p, s, CallbackResume);
      } else if s.callback.Stored? {
        assert Enabled(p, s, CallbackExchange);
      } else if !Current(p, s).outcome.Empty? {
        assert Enabled(p, s, CallElsewhere);
      }
    case Ended =>
  }

  /** The steps that are ahead of the await in progress. */
  function Ahead(s: State): nat {
    if s.body.Running? || s.body.Ended? then 0
    else
      (match s.callback case Absent => 4 case Outstanding => 3 case Stored => 2 case MustResume => 1 case Over => 0)
      + match s.body case Starting => 3 case Exchanging => 2 case _ => 1
  }

  lemma StepLowersAhead(p: Program, s: State, a: Action)
    requires Inv(p, s) && Enabled(p, s, a) && !a.Advance?
    ensures Ahead(Step(p, s, a)) < Ahead(s)
  {
  }

  /** Every step of an await leaves fewer of them, in whatever order both sides make theirs; so the number
      of steps of any execution is bounded by that of the awaits it has finished. */
  lemma {:induction false} AwaitsAreBounded(p: Program, actions: seq<Action>)
    requires Run(p, actions).Some?
    ensures var s := Run(p, actions).value;
            |actions| + Ahead(s) <= 8 * |s.seen| + if s.body.Running? then 0 else if s.body.Ended? then 1 else 8
    decreases |actions|
  {
    if actions != [] {
      var init, a := actions[..|actions| - 1], actions[|actions| - 1];
      AwaitsAreBounded(p, init);
      RunKeepsInv(p, init);
      if !a.Advance? {
        StepLowersAhead(p, Run(p, init).value, a);
      }
    }
  }

  lemma {:induction false} DirectEnds(p: Program, n: nat, m: nat)
    requires n <= m && |Direct(p, n)| == n && p(Direct(p, n)).Return?
    ensures Direct(p, m) == Direct(p, n)
    decreases m
  {
    if n < m {
      DirectEnds(p, n, m - 1);
    }
  }

  /** Two programs that await the same outcomes, which may be ready in one and not in the other. */
  ghost predicate DifferInReadiness(p: Program, q: Program) {
    forall seen: seq<Outcome> :: SameMove(p(seen), q(seen))
  }

  predicate SameMove(m: Move, n: Move) {
    match m
    case Await(on) => n.Await? && n.on.outcome == on.outcome
    case Return(r) => n == Return(r)
  }

  lemma {:induction false} DirectIgnoresReadiness(p: Program, q: Program, n: nat)
    requires DifferInReadiness(p, q)
    ensures Direct(p, n) == Direct(q, n)
  {
    if n > 0 {
      DirectIgnoresReadiness(p, q, n - 1);
      assert SameMove(p(Direct(p, n - 1)), q(Direct(p, n - 1)));
    }
  }

  /** Whatever the schedules, and whichever continuables are ready, resolve in place or resolve later:
      two executions that finish saw the same outcomes and resolve their promise alike. */
  lemma SchedulesAgree(p: Program, q: Program, one: seq<Action>, other: seq<Action>)
    requires DifferInReadiness(p, q)
    requires Run(p, one).Some? && Run(p, one).value.body.Ended?
    requires Run(q, other).Some? && Run(q, other).value.body.Ended?
    ensures Run(p, one).value.seen == Run(q, other).value.seen
    ensures Run(p, one).value.promise == Run(q, other).value.promise
  {
    RunKeepsInv(p, one);
    RunKeepsInv(q, other);
    var s, t := Run(p, one).value, Run(q, other).value;
    DirectIgnoresReadiness(p, q, |s.seen|);
    DirectIgnoresReadiness(p, q, |t.seen|);
    if |s.seen| <= |t.seen| {
      DirectEnds(p, |s.seen|, |t.seen|);
    } else {
      DirectEnds(q, |t.seen|, |s.seen|);
    }
    assert SameMove(p(s.seen), q(s.seen));
  }

  /** A program with other continuables ready. */
  function WithReadiness(p: Program, ready: seq<Outcome> -> bool): Program {
    (seen: seq<Outcome>) =>
      match p(seen)
      case Await(on) => Await(Awaited(ready(seen), on.outcome))
      case Return(r) => Return(r)
  }

  lemma ReadinessDiffers(p: Program, ready: seq<Outcome> -> bool)
    ensures DifferInReadiness(p, WithReadiness(p, ready))
  {
  }

  /** For any program: which continuables are ready cannot be told from what it sees or resolves to. */
  lemma ReadinessIsInvisible(p: Program, ready: seq<Outcome> -> bool, one: seq<Action>, other: seq<Action>)
    requires Run(p, one).Some? && Run(p, one).value.body.Ended?
    requires Run(WithReadiness(p, ready), other).Some? && Run(WithReadiness(p, ready), other).value.body.Ended?
    ensures Run(p, one).value.seen == Run(WithReadiness(p, ready), other).value.seen
    ensures Run(p, one).value.promise == Run(WithReadiness(p, ready), other).value.promise
  {
    ReadinessDiffers(p, ready);
    SchedulesAgree(p, WithReadiness(p, ready), one, other);
  }

  // ---------------------------------------------------------------------------------------
  // Which interleavings there are
  // ---------------------------------------------------------------------------------------

  lemma RunSnoc(p: Program, actions: seq<Action>, a: Action)
    requires Run(p, actions).Some?
    ensures var s := Run(p, actions).value;
            Run(p, actions + [a]) == if Enabled(p, s, a) then Some(Step(p, s, a)) else None
  {
    assert (actions + [a])[..|actions|] == actions;
  }

  /** Another thread may call the callback at any moment from the invocation of the continuable on, wherever
      the coroutine is; the continuable itself may do so until its invocation returns. */
  lemma CallbackMayComeAnyTime(p: Program, actions: seq<Action>)
    requires Run(p, actions).Some?
    ensures var s := Run(p, actions).value;
            s.callback.Outstanding? && p(s.seen).Await? && !p(s.seen).on.outcome.Empty? ==>
              && Run(p, actions + [CallElsewhere]).Some?
              && (s.body.Starting? ==> Run(p, actions + [CallInPlace]).Some?)
  {
    RunSnoc(p, actions, CallElsewhere);
    RunSnoc(p, actions, CallInPlace);
  }

  /** A callback on the stack of the coroutine has published its result before anything else can happen. */
  lemma InPlaceComesFirst(p: Program, actions: seq<Action>, a: Action)
    requires Run(p, actions).Some? && Run(p, actions + [CallInPlace] + [a]).Some?
    ensures a == CallbackExchange
  {
    var called := actions + [CallInPlace];
    RunSnoc(p, actions, CallInPlace);
    assert (called + [a])[..|called|] == called;
    RunSnoc(p, called, a);
    RunKeepsInv(p, called);
  }

  // ---------------------------------------------------------------------------------------
  // The awaitable object
  // ---------------------------------------------------------------------------------------

  /** What a whole call of the callback does: it stores, publishes, and resumes a coroutine whose
      suspension was published before. */
  ghost function CalledBack(p: Program, s: State, call: Action): State
    requires Inv(p, s) && Enabled(p, s, call) && (call.CallInPlace? || call.CallElsewhere?)
  {
    var t := Step(p, Step(p, s, call), CallbackExchange);
    if t.callback.MustResume? then Step(p, t, CallbackResume) else t
  }

  /** What a whole `await_suspend` does, if only a callback on its own stack comes in between. */
  ghost function SuspendedFrom(p: Program, s: State, inPlace: bool): State
    requires Inv(p, s) && s.body.Starting? && s.callback.Absent? && (inPlace ==> !Current(p, s).outcome.Empty?)
  {
    StepPreservesInv(p, s, Invoke);
    var invoked := Step(p, s, Invoke);
    var returned := Step(p, if inPlace then CalledBack(p, invoked, CallInPlace) else invoked, ReturnFromDone);
    Step(p, returned, SuspendExchange)
  }

  /** The object that `co_await` works on; `model` is the state of the hand-off it is part of. */
  class Awaitable {
    var continuable: Option<Awaited>     // until it is queried or invoked
    var result: Outcome
    var state: Atomic
    ghost const program: Program
    ghost var model: State

    ghost predicate Valid()
      reads this
    {
      Inv(program, model) && model.atomic == state && model.result == result
    }

    /** A ready continuable is queried at once. */
    constructor (on: Awaited, ghost p: Program, ghost s: State)
      requires Inv(p, s) && s.body.Running? && p(s.seen) == Await(on)
      ensures Valid() && program == p && model == Step(p, s, Advance)
      ensures continuable == if on.ready then None else Some(on)
    {
      result, continuable := if on.ready then on.outcome else Empty, if on.ready then None else Some(on);
      state := Pending;
      program, model := p, Step(p, s, Advance);
      new;
      StepPreservesInv(p, s, Advance);
    }

    method AwaitReady() returns (ready: bool)
      requires Valid()
      ensures ready <==> !result.Empty?
    {
      ready := !result.Empty?;
    }

    /** Moves the ghost state along and keeps the invariant. */
    ghost method Proceed(a: Action)
      requires Inv(program, model) && Enabled(program, model, a)
      modifies this`model
      ensures model == Step(program, old(model), a) && Inv(program, model)
    {
      StepPreservesInv(program, model, a);
      model := Step(program, model, a);
    }

    /** The callback attached to the continuable; tells whether it resumed the coroutine. */
    method Callback(o: Outcome, ghost call: Action) returns (resumed: bool)
      requires Valid() && Enabled(program, model, call) && (call.CallInPlace? || call.CallElsewhere?)
      requires o == Current(program, model).outcome
      modifies this`result, this`state, this`model
      ensures Valid() && model == CalledBack(program, old(model), call) && result == o
      ensures resumed <==> old(model).body.Parked?
    {
      assert result.Empty?;
      result := o;
      Proceed(call);
      var before := state;
      state := Resolved;
      Proceed(CallbackExchange);
      resumed := before == Suspended;
      if resumed {
        Proceed(CallbackResume);
      }
    }

    /** Invokes the continuable, whose callback may be called meanwhile, and publishes the suspension.
        The coroutine stays suspended exactly if the callback was not called. */
    method AwaitSuspend(inPlace: bool) returns (suspend: bool)
      requires Valid() && model.body.Starting? && model.callback.Absent?
      requires continuable == Some(Current(program, model)) && (inPlace ==> !continuable.value.outcome.Empty?)
      modifies this
      ensures Valid() && model == SuspendedFrom(program, old(model), inPlace) && continuable.None?
      ensures if suspend then model.body.Parked? && !inPlace
              else model.body.Running? && result == old(continuable.value.outcome)
    {
      var on := continuable.value;
      continuable := None;
      Proceed(Invoke);
      if inPlace {
        var resumed := Callback(on.outcome, CallInPlace);
        assert !resumed;
      }
      Proceed(ReturnFromDone);
      var before := state;
      state := Suspended;
      Proceed(SuspendExchange);
      suspend := before != Resolved;
    }
  }

  /** `co_await`, as the compiler calls the awaitable: it suspends only if the continuable is not ready.
      Either the coroutine goes on with the outcome, or it is parked and the callback will resume it. */
  method CoAwait(on: Awaited, inPlace: bool, ghost p: Program, ghost s: State)
    returns (awaitable: Awaitable, suspended: bool)
    requires Inv(p, s) && s.body.Running? && p(s.seen) == Await(on)
    requires (on.ready || inPlace) ==> !on.outcome.Empty?
    ensures fresh(awaitable) && awaitable.Valid() && awaitable.program == p
    ensures suspended <==> !on.ready && !inPlace
    ensures if suspended then awaitable.model.body.Parked? && awaitable.model.seen == s.seen
            else awaitable.model.body.Running? && awaitable.model.seen == s.seen + [on.outcome]
  {
    awaitable := new Awaitable(on, p, s);
    suspended := false;
    var ready := awaitable.AwaitReady();
    if !ready {
      suspended := awaitable.AwaitSuspend(inPlace);
    }
  }
}
