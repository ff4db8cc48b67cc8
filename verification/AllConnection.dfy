/** The `all` connection: a counter that starts at one guard, one count per registered callback, a
    flag that lets the final callback be called once, and a box per continuable. Callbacks run on
    any thread, so the protocol is a transition system whose steps are the atomic operations, in
    any interleaving. */
module AllConnection {
  import opened Results

  /** How far a partial callback has come. `Invoking` has taken the counter to zero and is about to
      invoke the final callback. */
  datatype Role = Unregistered | Registered | Assigned | Invoking | Completed | Failed

  /** The guard count, which the connecting side gives back in `accept`. */
  datatype Guard = Held | GuardInvoking | Accepted

  datatype State = State(
    left: int,
    roles: seq<Role>,
    boxes: seq<Option<seq<Arg>>>,
    guard: Guard,
    flag: bool,
    delivered: seq<Outcome>)

  datatype Action =
    | Create(i: nat)                     // create_callback: increments the counter
    | Assign(i: nat, args: seq<Arg>)     // the partial callback stores its result
    | Decrement(i: nat)                  // complete_one on behalf of a callback
    | Invoke(i: nat)                     // invoke on behalf of a callback
    | Fail(i: nat, error: Error)         // the partial callback receives an exception
    | AcceptDecrement                    // complete_one on behalf of accept
    | AcceptInvoke                       // invoke on behalf of accept

  function Init(n: nat): State {
    State(1, seq(n, _ => Unregistered), seq(n, _ => None), Held, false, [])
  }

  /** The program order of each side: callbacks are created from left to right before `accept`;
      each callback resolves at most once, with a result or with an exception. */
  predicate Enabled(s: State, a: Action) {
    match a
    case Create(i) =>
      && i < |s.roles| && s.roles[i].Unregistered? && s.guard.Held?
      && forall j | 0 <= j < i :: !s.roles[j].Unregistered?
    case Assign(i, _) => i < |s.roles| && i < |s.boxes| && s.roles[i].Registered?
    case Decrement(i) => i < |s.roles| && s.roles[i].Assigned?
    case Invoke(i) => i < |s.roles| && s.roles[i].Invoking?
    case Fail(i, _) => i < |s.roles| && s.roles[i].Registered?
    case AcceptDecrement => s.guard.Held? && Unregistered !in s.roles
    case AcceptInvoke => s.guard.GuardInvoking?
  }

  /** The boxes that are filled, in order. */
  function Unboxed(boxes: seq<Option<seq<Arg>>>): seq<Arg> {
    if boxes == [] then []
    else (match boxes[0] case Some(args) => args case None => []) + Unboxed(boxes[1..])
  }

  /** `call_once` on the shared flag. */
  function CallOnce(s: State, o: Outcome): State {
    if s.flag then s else s.(flag := true, delivered := s.delivered + [o])
  }

  function Step(s: State, a: Action): State
    requires Enabled(s, a)
  {
    match a
    case Create(i) => s.(left := s.left + 1, roles := s.roles[i := Registered])
    case Assign(i, args) => s.(boxes := s.boxes[i := Some(args)], roles := s.roles[i := Assigned])
    case Decrement(i) => s.(left := s.left - 1, roles := s.roles[i := if s.left - 1 == 0 then Invoking else Completed])
    case Invoke(i) => CallOnce(s, Value(Unboxed(s.boxes))).(roles := s.roles[i := Completed])
    case Fail(i, e) => CallOnce(s, Exception(e)).(roles := s.roles[i := Failed])
    case AcceptDecrement => s.(left := s.left - 1, guard := if s.left - 1 == 0 then GuardInvoking else Accepted)
    case AcceptInvoke => CallOnce(s, Value(Unboxed(s.boxes))).(guard := Accepted)
  }

  /** The state after a run; None if some step of it was not possible. */
  function Run(s: State, run: seq<Action>): Option<State> {
    if run == [] then Some(s)
    else
      match Run(s, run[..|run| - 1])
      case None => None
      case Some(t) => if Enabled(t, run[|run| - 1]) then Some(Step(t, run[|run| - 1])) else None
  }

  // ---------------------------------------------------------------------------------------
  // The invariant
  // ---------------------------------------------------------------------------------------

  /** Callbacks that were registered and have not given their count back; failed ones never do. */
  predicate Counted(r: Role) { r.Registered? || r.Assigned? || r.Failed? }

  function Count(roles: seq<Role>): nat {
    if roles == [] then 0 else (if Counted(roles[0]) then 1 else 0) + Count(roles[1..])
  }

  lemma {:induction false} CountUpdate(roles: seq<Role>, i: nat, r: Role)
    requires i < |roles|
    ensures Count(roles[i := r]) == Count(roles) - (if Counted(roles[i]) then 1 else 0) + (if Counted(r) then 1 else 0)
  {
    if i == 0 {
      assert roles[i := r][1..] == roles[1..];
    } else {
      assert roles[i := r][1..] == roles[1..][i - 1 := r];
      CountUpdate(roles[1..], i - 1, r);
    }
  }

  lemma {:induction false} CountPositive(roles: seq<Role>, i: nat)
    requires i < |roles| && Counted(roles[i])
    ensures Count(roles) > 0
  {
    if i > 0 {
      CountPositive(roles[1..], i - 1);
    }
  }

  lemma {:induction false} NothingCounted(n: nat)
    ensures Count(seq(n, _ => Unregistered)) == 0
  {
    if n > 0 {
      var roles: seq<Role> := seq(n, _ => Unregistered);
      assert roles[1..] == seq(n - 1, _ => Unregistered);
      NothingCounted(n - 1);
    }
  }

  ghost predicate Filled(r: Role) { r.Assigned? || r.Invoking? || r.Completed? }

  /** At most one party is about to invoke. */
  ghost predicate OneInvoker(s: State) {
    && (forall i, j | 0 <= i < j < |s.roles| :: !(s.roles[i].Invoking? && s.roles[j].Invoking?))
    && (s.guard.GuardInvoking? ==> Invoking !in s.roles)
  }

  ghost predicate SomeInvoker(s: State) { s.guard.GuardInvoking? || Invoking in s.roles }

  ghost predicate Inv(s: State) {
    && |s.boxes| == |s.roles|
    && s.left == (if s.guard.Held? then 1 else 0) + Count(s.roles)
    && (forall i | 0 <= i < |s.roles| :: s.boxes[i].Some? <==> Filled(s.roles[i]))
    && (!s.guard.Held? ==> Unregistered !in s.roles)
    && OneInvoker(s)
    && (SomeInvoker(s) ==> s.left == 0)
    && (if s.flag then |s.delivered| == 1 else s.delivered == [])
    && (s.flag ==> (s.delivered[0].Exception? <==> Failed in s.roles))
    && (!s.flag ==> Failed !in s.roles)
    && (s.flag && !s.delivered[0].Exception? ==>
          s.left == 0 && !SomeInvoker(s) && s.delivered == [Value(Unboxed(s.boxes))])
    && (s.left == 0 && !s.flag ==> SomeInvoker(s))
  }

  lemma InitEstablishesInv(n: nat)
    ensures Inv(Init(n))
  {
    NothingCounted(n);
  }

  /** At zero everything was assigned, nothing failed and `accept` has run. */
  lemma ZeroMeansDone(s: State)
    requires Inv(s) && s.left == 0
    ensures !s.guard.Held?
    ensures forall i | 0 <= i < |s.roles| :: (s.roles[i].Invoking? || s.roles[i].Completed?) && s.boxes[i].Some?
  {
    forall i | 0 <= i < |s.roles|
      ensures (s.roles[i].Invoking? || s.roles[i].Completed?) && s.boxes[i].Some?
    {
      if Counted(s.roles[i]) {
        CountPositive(s.roles, i);
      }
      assert s.roles[i] in s.roles;
    }
  }

  /** The two assertions of the code: the counter is positive when it is decremented, and zero when
      the final callback is about to be invoked, at which point no box is missing. */
  lemma AssertionsHold(s: State, a: Action)
    requires Inv(s) && Enabled(s, a)
    ensures a.Decrement? || a.AcceptDecrement? ==> s.left > 0
    ensures a.Invoke? || a.AcceptInvoke? ==>
              s.left == 0 && !s.flag && !s.guard.Held? && forall i | 0 <= i < |s.boxes| :: s.boxes[i].Some?
  {
    if a.Decrement? {
      CountPositive(s.roles, a.i);
    }
    if a.Invoke? || a.AcceptInvoke? {
      assert a.Invoke? ==> s.roles[a.i] in s.roles;
      ZeroMeansDone(s);
    }
  }

  lemma StepPreservesInv(s: State, a: Action)
    requires Inv(s) && Enabled(s, a)
    ensures Inv(Step(s, a))
  {
    AssertionsHold(s, a);
    match a
    case Create(_) => RegistrationPreservesInv(s, a);
    case Assign(_, _) => RegistrationPreservesInv(s, a);
    case Decrement(_) => DecrementPreservesInv(s, a);
    case AcceptDecrement => DecrementPreservesInv(s, a);
    case Invoke(_) => CallPreservesInv(s, a);
    case AcceptInvoke => CallPreservesInv(s, a);
    case Fail(_, _) => CallPreservesInv(s, a);
  }

  lemma RegistrationPreservesInv(s: State, a: Action)
    requires Inv(s) && Enabled(s, a) && (a.Create? || a.Assign?)
    ensures Inv(Step(s, a))
  {
    RolesUpdate(s.roles, a.i, if a.Create? then Registered else Assigned);
  }

  lemma DecrementPreservesInv(s: State, a: Action)
    requires Inv(s) && Enabled(s, a) && (a.Decrement? || a.AcceptDecrement?)
    ensures Inv(Step(s, a))
  {
    AssertionsHold(s, a);
    if a.Decrement? {
      RolesUpdate(s.roles, a.i, if s.left - 1 == 0 then Invoking else Completed);
    }
  }

  lemma CallPreservesInv(s: State, a: Action)
    requires Inv(s) && Enabled(s, a) && (a.Invoke? || a.AcceptInvoke? || a.Fail?)
    ensures Inv(Step(s, a))
  {
    AssertionsHold(s, a);
    if !a.AcceptInvoke? {
      RolesUpdate(s.roles, a.i, if a.Invoke? then Completed else Failed);
    }
  }

  lemma RolesUpdate(roles: seq<Role>, i: nat, r: Role)
    requires i < |roles|
    ensures Count(roles[i := r]) == Count(roles) - (if Counted(roles[i]) then 1 else 0) + (if Counted(r) then 1 else 0)
    ensures roles[i := r][i] == r && r in roles[i := r]
    ensures forall x | x in roles[i := r] :: x == r || x in roles
    ensures forall x | x in roles && x != roles[i] :: x in roles[i := r]
    ensures Counted(roles[i]) ==> Count(roles) > 0
  {
    CountUpdate(roles, i, r);
    forall x | x in roles && x != roles[i]
      ensures x in roles[i := r]
    {
      var j :| 0 <= j < |roles| && roles[j] == x;
      assert roles[i := r][j] == x;
    }
    if Counted(roles[i]) {
      CountPositive(roles, i);
    }
  }

  // ---------------------------------------------------------------------------------------
  // Every run
  // ---------------------------------------------------------------------------------------

  /** The exceptions that reached partial callbacks, in the order of their arrival. */
  function Errors(run: seq<Action>): seq<Error> {
    if run == [] then []
    else
      var last := run[|run| - 1];
      Errors(run[..|run| - 1]) + if last.Fail? then [last.error] else []
  }

  /** What a run stored in a box. */
  function Stored(run: seq<Action>, i: nat): Option<seq<Arg>> {
    if run == [] then None
    else
      var last := run[|run| - 1];
      if last.Assign? && last.i == i then Some(last.args) else Stored(run[..|run| - 1], i)
  }

  function AllStored(run: seq<Action>, n: nat): seq<Option<seq<Arg>>> {
    seq(n, i requires 0 <= i < n => Stored(run, i))
  }

  /** Every registered callback is resolved and `accept` has returned. */
  predicate Quiescent(s: State) {
    s.guard.Accepted? && forall i | 0 <= i < |s.roles| :: s.roles[i].Completed? || s.roles[i].Failed?
  }

  lemma {:induction false} RunKeepsInv(n: nat, run: seq<Action>)
    requires Run(Init(n), run).Some?
    ensures var s := Run(Init(n), run).value;
            && Inv(s)
            && s.boxes == AllStored(run, n)
            && (Errors(run) == [] <==> Failed !in s.roles)
            && (Errors(run) != [] ==> s.delivered == [Exception(Errors(run)[0])])
    decreases |run|
  {
    if run == [] {
      InitEstablishesInv(n);
    } else {
      var before, a := run[..|run| - 1], run[|run| - 1];
      RunKeepsInv(n, before);
      var s := Run(Init(n), before).value;
      StepPreservesInv(s, a);
      AssertionsHold(s, a);
      StepChangesOnly(s, a);
    }
  }

  /** What a step does to the boxes, to the failures and to a delivered exception. */
  lemma StepChangesOnly(s: State, a: Action)
    requires Inv(s) && Enabled(s, a)
    ensures var t := Step(s, a);
            && t.boxes == (if a.Assign? then s.boxes[a.i := Some(a.args)] else s.boxes)
            && (Failed in t.roles <==> Failed in s.roles || a.Fail?)
            && (Failed in s.roles ==> t.delivered == s.delivered)
            && (a.Fail? && Failed !in s.roles ==> t.delivered == [Exception(a.error)])
  {
    AssertionsHold(s, a);
    match a
    case Create(i) => RolesUpdate(s.roles, i, Registered);
    case Assign(i, _) => RolesUpdate(s.roles, i, Assigned);
    case Decrement(i) => RolesUpdate(s.roles, i, if s.left - 1 == 0 then Invoking else Completed);
    case Invoke(i) => RolesUpdate(s.roles, i, Completed);
    case Fail(i, _) =>
      RolesUpdate(s.roles, i, Failed);
      if s.left == 0 {
        ZeroMeansDone(s);
      }
    case AcceptDecrement =>
    case AcceptInvoke =>
  }

  lemma {:induction false} CountZero(roles: seq<Role>)
    requires forall i | 0 <= i < |roles| :: !Counted(roles[i])
    ensures Count(roles) == 0
  {
    if roles != [] {
      CountZero(roles[1..]);
    }
  }

  lemma {:induction false} UnboxedInOrder(boxes: seq<Option<seq<Arg>>>)
    requires forall i | 0 <= i < |boxes| :: boxes[i].Some?
    ensures Unboxed(boxes) == Concat(seq(|boxes|, i requires 0 <= i < |boxes| => boxes[i].value))
  {
    if boxes != [] {
      UnboxedInOrder(boxes[1..]);
      var values := seq(|boxes|, i requires 0 <= i < |boxes| => boxes[i].value);
      assert values[1..] == seq(|boxes[1..]|, i requires 0 <= i < |boxes[1..]| => boxes[1..][i].value);
    }
  }

  /** A box holds what the callback of its continuable was called with, and nothing else. */
  lemma {:induction false} StoredIff(n: nat, run: seq<Action>, i: nat, args: seq<Arg>)
    requires Run(Init(n), run).Some? && i < n
    ensures Stored(run, i) == Some(args) <==> Assign(i, args) in run
    decreases |run|
  {
    if run != [] {
      var init, last := run[..|run| - 1], run[|run| - 1];
      StoredIff(n, init, i, args);
      assert run == init + [last];
      if last.Assign? && last.i == i {
        RunKeepsInv(n, init);
        var s := Run(Init(n), init).value;
        assert s.boxes[i].None? && s.boxes[i] == Stored(init, i);
      }
    }
  }

  /** The first exception to arrive. */
  lemma {:induction false} ErrorsInOrder(run: seq<Action>)
    ensures Errors(run) != [] ==>
              exists k :: && 0 <= k < |run| && run[k].Fail? && run[k].error == Errors(run)[0]
                          && forall j | 0 <= j < k :: !run[j].Fail?
    ensures Errors(run) == [] ==> forall k | 0 <= k < |run| :: !run[k].Fail?
    decreases |run|
  {
    if run != [] {
      var init := run[..|run| - 1];
      ErrorsInOrder(init);
      if Errors(init) != [] {
        var k :| && 0 <= k < |init| && init[k].Fail? && init[k].error == Errors(init)[0]
                 && forall j | 0 <= j < k :: !init[j].Fail?;
        assert run[k] == init[k] && forall j | 0 <= j < k :: run[j] == init[j];
      } else if run[|run| - 1].Fail? {
        assert forall j | 0 <= j < |run| - 1 :: run[j] == init[j];
      }
    }
  }

  /** The counter is the guard, if it is still held, plus the registered callbacks that have not
      given their count back. The final callback is called at most once. If some callback failed it
      got the first exception that arrived; otherwise it can only have got the values of all boxes,
      after `accept`. Once everything is resolved it has been called. */
  lemma AllDelivers(n: nat, run: seq<Action>)
    requires Run(Init(n), run).Some?
    ensures var s := Run(Init(n), run).value;
            && s.left == (if s.guard.Held? then 1 else 0) + Count(s.roles)
            && |s.delivered| <= 1 && |s.roles| == n
            && (Errors(run) != [] ==> s.delivered == [Exception(Errors(run)[0])])
            && (Errors(run) == [] && s.delivered != [] ==>
                  && (forall i | 0 <= i < n :: Stored(run, i).Some?)
                  && !s.guard.Held?
                  && s.delivered == [Value(Concat(seq(n, i requires 0 <= i < n => Stored(run, i).value)))])
            && (s.guard.Accepted? && (forall i | 0 <= i < n :: s.roles[i].Completed? || s.roles[i].Failed?) ==>
                  |s.delivered| == 1)
  {
    RunKeepsInv(n, run);
    var s := Run(Init(n), run).value;
    if Errors(run) == [] && s.delivered != [] {
      ZeroMeansDone(s);
      forall i | 0 <= i < n
        ensures Stored(run, i).Some?
      {
        assert s.boxes[i].Some?;
      }
      UnboxedInOrder(AllStored(run, n));
      assert seq(n, i requires 0 <= i < n => AllStored(run, n)[i].value)
          == seq(n, i requires 0 <= i < n => Stored(run, i).value);
    }
    if Quiescent(s) && Failed !in s.roles {
      CountZero(s.roles);
    }
  }

  // ---------------------------------------------------------------------------------------
  // Which interleavings there are
  // ---------------------------------------------------------------------------------------

  lemma RunSnoc(n: nat, run: seq<Action>, s: State, a: Action)
    requires Run(Init(n), run) == Some(s)
    ensures Run(Init(n), run + [a]) == if Enabled(s, a) then Some(Step(s, a)) else None
  {
    assert (run + [a])[..|run|] == run;
  }

  /** The callback of a continuable was called. */
  predicate Called(run: seq<Action>, i: nat) {
    exists a | a in run :: (a.Assign? || a.Fail?) && a.i == i
  }

  lemma {:induction false} RegisteredIff(n: nat, run: seq<Action>, i: nat)
    requires Run(Init(n), run).Some? && i < n
    ensures var s := Run(Init(n), run).value;
            && |s.roles| == |s.boxes| == n
            && (s.roles[i].Registered? <==> Create(i) in run && !Called(run, i))
            && (s.roles[i].Unregistered? ==> !Called(run, i))
            && (Create(i) in run <==> !s.roles[i].Unregistered?)
    decreases |run|
  {
    if run != [] {
      var init, last := run[..|run| - 1], run[|run| - 1];
      assert run == init + [last];
      RegisteredIff(n, init, i);
      assert Called(run, i) <==> Called(init, i) || ((last.Assign? || last.Fail?) && last.i == i) by {
        if a :| a in init && (a.Assign? || a.Fail?) && a.i == i {
          assert a in run;
        }
        assert last in run;
      }
    }
  }

  /** A callback that was registered and not called yet may be called with any result or exception at any
      moment, before or after `accept` and whether or not the connection has failed. */
  lemma CallbacksComeAnyTime(n: nat, run: seq<Action>, i: nat, args: seq<Arg>, e: Error)
    requires Run(Init(n), run).Some? && Create(i) in run && !Called(run, i) && i < n
    ensures Run(Init(n), run + [Assign(i, args)]).Some? && Run(Init(n), run + [Fail(i, e)]).Some?
  {
    var s := Run(Init(n), run).value;
    RegisteredIff(n, run, i);
    RunSnoc(n, run, s, Assign(i, args));
    RunSnoc(n, run, s, Fail(i, e));
  }

  // ---------------------------------------------------------------------------------------
  // The submitter object
  // ---------------------------------------------------------------------------------------

  /** The shared state of a connection. `model` is the protocol state it is in, which also knows how
      far each callback has come. */
  class ResultSubmitter {
    var result: seq<Option<seq<Arg>>>
    var left: int
    var flag: bool
    var delivered: seq<Outcome>     // the calls of the final callback
    ghost var model: State

    ghost predicate Valid()
      reads this
    {
      && Inv(model)
      && model.left == left && model.boxes == result && model.flag == flag && model.delivered == delivered
    }

    constructor (n: nat)
      ensures Valid() && model == Init(n)
    {
      result, left, flag, delivered := seq(n, _ => None), 1, false, [];
      model := Init(n);
      InitEstablishesInv(n);
    }

    /** Moves the ghost state along and keeps the invariant. */
    ghost method Advance(a: Action)
      requires Inv(model) && Enabled(model, a)
      modifies this`model
      ensures model == Step(old(model), a) && Inv(model)
    {
      StepPreservesInv(model, a);
      model := Step(model, a);
    }

    method CreateCallback(i: nat)
      requires Valid() && Enabled(model, Create(i))
      modifies this
      ensures Valid() && model == Step(old(model), Create(i))
    {
      left := left + 1;
      Advance(Create(i));
    }

    /** Calls the final callback unless it was called before. */
    method CallOnceWith(o: Outcome)
      modifies this`flag, this`delivered
      ensures flag && delivered == if old(flag) then old(delivered) else old(delivered) + [o]
    {
      if !flag {
        flag := true;
        delivered := delivered + [o];
      }
    }

    /** The final callback gets the unboxed results; `a` says on whose behalf. */
    method InvokeCallback(ghost a: Action)
      requires Valid() && (a.Invoke? || a.AcceptInvoke?) && Enabled(model, a)
      modifies this
      ensures Valid() && model == Step(old(model), a)
    {
      AssertionsHold(model, a);
      assert left == 0;
      CallOnceWith(Value(Unboxed(result)));
      Advance(a);
    }

    /** Completes one result; `a` says on whose behalf. The last one invokes the callback. */
    method CompleteOne(ghost a: Action)
      requires Valid() && (a.Decrement? || a.AcceptDecrement?) && Enabled(model, a)
      modifies this
      ensures Valid() && model == CompletedOne(old(model), a)
    {
      AssertionsHold(model, a);
      assert left > 0;
      left := left - 1;
      var current := left;
      Advance(a);
      if current == 0 {
        InvokeCallback(if a.Decrement? then Invoke(a.i) else AcceptInvoke);
      }
    }

    /** The result operator of a partial callback. */
    method PartialResult(i: nat, args: seq<Arg>)
      requires Valid() && Enabled(model, Assign(i, args))
      modifies this
      ensures Valid() && model == CompletedOne(Step(old(model), Assign(i, args)), Decrement(i))
    {
      result := result[i := Some(args)];
      Advance(Assign(i, args));
      CompleteOne(Decrement(i));
    }

    /** The exception operator of a partial callback. */
    method PartialError(i: nat, e: Error)
      requires Valid() && Enabled(model, Fail(i, e))
      modifies this
      ensures Valid() && model == Step(old(model), Fail(i, e))
    {
      CallOnceWith(Exception(e));
      Advance(Fail(i, e));
    }

    method Accept()
      requires Valid() && Enabled(model, AcceptDecrement)
      modifies this
      ensures Valid() && model == CompletedOne(old(model), AcceptDecrement)
    {
      CompleteOne(AcceptDecrement);
    }
  }

  /** `complete_one` in one piece: the decrement, and the invocation if it reached zero. */
  ghost function CompletedOne(s: State, a: Action): State
    requires (a.Decrement? || a.AcceptDecrement?) && Enabled(s, a)
  {
    var t := Step(s, a);
    if t.left != 0 then t
    else if a.Decrement? then Step(t, Invoke(a.i))
    else Step(t, AcceptInvoke)
  }

  /** Extends a run by one action. */
  /** The protocol is in the state that a run of its actions leads to. */
  ghost predicate Reached(submitter: ResultSubmitter, n: nat, run: seq<Action>)
    reads submitter
  {
    submitter.Valid() && Run(Init(n), run) == Some(submitter.model)
  }

  /** Where dispatching leaves a callback whose continuable resolved at once, or did not (`Empty`). */
  function RoleAfter(o: Outcome): Role {
    match o case Value(_) => Completed case Exception(_) => Failed case Empty => Registered
  }

  /** The first exception among the resolutions that arrive during a dispatch. */
  function FirstError(os: seq<Outcome>): seq<Outcome> {
    if os == [] then []
    else
      var before, last := FirstError(os[..|os| - 1]), os[|os| - 1];
      if before == [] && last.Exception? then [last] else before
  }

  lemma {:induction false} NoErrorAmong(os: seq<Outcome>)
    ensures FirstError(os) == [] <==> forall i | 0 <= i < |os| :: !os[i].Exception?
  {
    if os != [] {
      NoErrorAmong(os[..|os| - 1]);
    }
  }

  /** While the guard is held, giving a count back never reaches zero. */
  lemma GuardKeepsCounting(s: State, i: nat, args: seq<Arg>)
    requires Inv(s) && s.guard.Held? && Enabled(s, Assign(i, args))
    ensures var t := Step(s, Assign(i, args));
            && Enabled(t, Decrement(i)) && Inv(t)
            && CompletedOne(t, Decrement(i)) == Step(t, Decrement(i))
            && Step(t, Decrement(i)).roles == s.roles[i := Completed]
            && Step(t, Decrement(i)).delivered == s.delivered
  {
    StepPreservesInv(s, Assign(i, args));
    CountPositive(s.roles, i);
    RolesUpdate(s.roles, i, Assigned);
    assert s.roles[i := Assigned][i := Completed] == s.roles[i := Completed];
  }

  /** Creates the callback of box `i` and starts its continuable, which may resolve at once. */
  method DispatchOne(submitter: ResultSubmitter, i: nat, o: Outcome, ghost n: nat, ghost run: seq<Action>)
    returns (ghost run': seq<Action>)
    requires Reached(submitter, n, run) && Enabled(submitter.model, Create(i))
    modifies submitter
    ensures Reached(submitter, n, run')
    ensures submitter.model.guard == old(submitter.model.guard)
    ensures submitter.model.roles == old(submitter.model.roles)[i := RoleAfter(o)]
    ensures submitter.result == if o.Value? then old(submitter.result)[i := Some(o.args)] else old(submitter.result)
    ensures submitter.delivered ==
              if o.Exception? && old(submitter.delivered) == [] then [o] else old(submitter.delivered)
  {
    ghost var s := submitter.model;
    RunSnoc(n, run, s, Create(i));
    submitter.CreateCallback(i);
    ghost var t := submitter.model;
    run' := run + [Create(i)];
    assert s.roles[i := Registered][i := RoleAfter(o)] == s.roles[i := RoleAfter(o)];
    match o
    case Value(args) =>
      RunSnoc(n, run', t, Assign(i, args));
      GuardKeepsCounting(t, i, args);
      RunSnoc(n, run' + [Assign(i, args)], Step(t, Assign(i, args)), Decrement(i));
      submitter.PartialResult(i, args);
      run' := run' + [Assign(i, args)] + [Decrement(i)];
    case Exception(e) =>
      RunSnoc(n, run', t, Fail(i, e));
      submitter.PartialError(i, e);
      run' := run' + [Fail(i, e)];
    case Empty =>
  }

  /** What the callback is called with during a dispatch: the first exception to arrive, or the values
      of all boxes when `accept` runs, or nothing yet. */
  ghost function DispatchDelivers(inPlace: seq<Outcome>, boxes: seq<Option<seq<Arg>>>): seq<Outcome> {
    if FirstError(inPlace) != [] then FirstError(inPlace)
    else if forall i | 0 <= i < |inPlace| :: inPlace[i].Value? then [Value(Unboxed(boxes))]
    else []
  }

  /** The first `k` continuables were started, and the guard is still held. */
  ghost predicate Begun(s: State, inPlace: seq<Outcome>, k: nat)
    requires k <= |inPlace|
  {
    && s.guard.Held? && |s.roles| == |s.boxes| == |inPlace|
    && (forall j | 0 <= j < |inPlace| :: s.roles[j] == if j < k then RoleAfter(inPlace[j]) else Unregistered)
    && (forall j | 0 <= j < k && inPlace[j].Value? :: s.boxes[j] == Some(inPlace[j].args))
    && s.delivered == FirstError(inPlace[..k])
  }

  lemma BeginsOneMore(s: State, t: State, inPlace: seq<Outcome>, k: nat)
    requires k < |inPlace| && Begun(s, inPlace, k)
    requires var o := inPlace[k];
             && t.guard == s.guard && t.roles == s.roles[k := RoleAfter(o)]
             && t.boxes == (if o.Value? then s.boxes[k := Some(o.args)] else s.boxes)
             && t.delivered == if o.Exception? && s.delivered == [] then [o] else s.delivered
    ensures Begun(t, inPlace, k + 1)
  {
    assert inPlace[..k + 1][..k] == inPlace[..k];
  }

  /** Every continuable is started, from left to right. */
  method StartAll(submitter: ResultSubmitter, inPlace: seq<Outcome>) returns (ghost run: seq<Action>)
    requires submitter.Valid() && submitter.model == Init(|inPlace|)
    modifies submitter
    ensures Reached(submitter, |inPlace|, run)
    ensures Begun(submitter.model, inPlace, |inPlace|)
  {
    run := [];
    for i := 0 to |inPlace|
      invariant Reached(submitter, |inPlace|, run)
      invariant Begun(submitter.model, inPlace, i)
    {
      ghost var before := submitter.model;
      run := DispatchOne(submitter, i, inPlace[i], |inPlace|, run);
      BeginsOneMore(before, submitter.model, inPlace, i);
    }
  }

  lemma NothingCountedIff(s: State, inPlace: seq<Outcome>)
    requires Begun(s, inPlace, |inPlace|)
    ensures Count(s.roles) == 0 <==> forall i | 0 <= i < |inPlace| :: inPlace[i].Value?
  {
    if i :| 0 <= i < |inPlace| && !inPlace[i].Value? {
      CountPositive(s.roles, i);
    } else {
      CountZero(s.roles);
    }
  }

  lemma AcceptDelivers(s: State, inPlace: seq<Outcome>)
    requires Inv(s) && Begun(s, inPlace, |inPlace|) && Enabled(s, AcceptDecrement)
    ensures var t := CompletedOne(s, AcceptDecrement);
            && t.delivered == DispatchDelivers(inPlace, s.boxes)
            && t.boxes == s.boxes && t.roles == s.roles && t.guard.Accepted?
  {
    assert inPlace[..|inPlace|] == inPlace;
    NoErrorAmong(inPlace);
    NothingCountedIff(s, inPlace);
  }

  /** The dispatch of a connection: every continuable is started, then the guard is given back. This is
      one of the runs of the protocol, so everything said about runs holds for it and for whatever
      the callbacks that are still registered do afterwards. */
  method Dispatch(inPlace: seq<Outcome>) returns (submitter: ResultSubmitter, ghost run: seq<Action>)
    ensures fresh(submitter) && Reached(submitter, |inPlace|, run)
    ensures submitter.model.guard.Accepted? && |submitter.model.roles| == |inPlace|
    ensures forall i | 0 <= i < |inPlace| :: submitter.model.roles[i] == RoleAfter(inPlace[i])
    ensures forall i | 0 <= i < |inPlace| :: inPlace[i].Value? ==> submitter.model.boxes[i] == Some(inPlace[i].args)
    ensures submitter.delivered == DispatchDelivers(inPlace, submitter.result)
  {
    submitter := new ResultSubmitter(|inPlace|);
    run := StartAll(submitter, inPlace);
    ghost var s := submitter.model;
    AcceptDelivers(s, inPlace);
    RunSnoc(|inPlace|, run, s, AcceptDecrement);
    submitter.Accept();
    run := run + [AcceptDecrement];
    if Step(s, AcceptDecrement).left == 0 {
      RunSnoc(|inPlace|, run, Step(s, AcceptDecrement), AcceptInvoke);
      run := run + [AcceptInvoke];
    }
  }
}
