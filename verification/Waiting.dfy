/** The blocking wait. The waiter owns a frame on its stack with a mutex, a condition variable, a
    ready flag and a result; an unlocker, which is moved along with the callback, writes to that frame
    when it is called or destroyed. Both sides are sequences of atomic steps, in any interleaving. */
module Waiting {
  import opened Results

  /** The steps of the waiter, each named after what it does next. */
  datatype Waiter =
    | Locking          // lock the mutex
    | Checking         // load the ready flag, holding the mutex
    | Sleeping         // inside cv.wait, without the mutex
    | Reading          // read the result and return, holding the mutex
    | Returned         // the frame is gone

  /** The steps of `unlock`, once an unlocker with the ownership started it. */
  datatype Unlocker =
    | Untouched        // nobody unlocked yet
    | LockingToStore   // lock the mutex
    | Storing          // write the result, holding the mutex
    | Publishing       // store the ready flag, holding the mutex
    | Notifying        // notify, holding the mutex
    | Unlocking        // unlock the mutex
    | Finished

  datatype Holder = Nobody | TheWaiter | TheUnlocker

  datatype State = State(
    waiter: Waiter,
    unlocker: Unlocker,
    payload: Outcome,            // what the running unlock was called with
    owners: seq<bool>,           // the unlocker objects and their ownership
    mutex: Holder,
    ready: bool,
    result: Outcome,
    woken: bool,                 // the sleeping waiter was notified
    returned: Option<Outcome>)

  function Init(): State {
    State(Locking, Untouched, Empty, [true], Nobody, false, Empty, false, None)
  }

  datatype Action =
    | MoveTo(i: nat)                       // move unlocker i to a new object
    | AssignTo(i: nat, j: nat)             // move-assign unlocker i to unlocker j
    | Overwrite(j: nat)                    // move-assign an unlocker of some other wait to unlocker j
    | Call(i: nat, o: Outcome)             // call unlocker i
    | Drop(i: nat)                         // destroy unlocker i
    | Unlock                               // the next step of the running unlock
    | Wait                                 // the next step of the waiter
    | Spurious                             // the condition variable wakes up by itself

  predicate Enabled(s: State, a: Action) {
    match a
    case MoveTo(i) => i < |s.owners|
    case AssignTo(i, j) => i < |s.owners| && j < |s.owners|
    case Overwrite(j) => j < |s.owners|
    case Call(i, o) => i < |s.owners| && !o.Empty?
    case Drop(i) => i < |s.owners|
    case Unlock =>
      (match s.unlocker
       case Untouched => false
       case Finished => false
       case LockingToStore => s.mutex.Nobody?
       case _ => true)
    case Wait =>
      (match s.waiter
       case Locking => s.mutex.Nobody?
       case Sleeping => s.woken && s.mutex.Nobody?
       case Returned => false
       case _ => true)
    case Spurious => s.waiter.Sleeping? && s.mutex.Nobody?
  }

  /** An unlocker object unlocks only if it still has the ownership, which it gives up first. */
  function StartUnlock(s: State, i: nat, o: Outcome): State
    requires i < |s.owners|
  {
    if !s.owners[i] then s
    else s.(owners := s.owners[i := false], unlocker := LockingToStore, payload := o)
  }

  /** Move assignment of an ownership: the one of the target is forgotten, without unlocking. */
  function Assigned(owners: seq<bool>, i: nat, j: nat): seq<bool>
    requires i < |owners| && j < |owners|
  {
    if i == j then owners else owners[j := owners[i]][i := false]
  }

  function Step(s: State, a: Action): State
    requires Enabled(s, a)
  {
    match a
    case MoveTo(i) => s.(owners := s.owners[i := false] + [s.owners[i]])
    case AssignTo(i, j) => s.(owners := Assigned(s.owners, i, j))
    case Overwrite(j) => s.(owners := s.owners[j := false])
    case Call(i, o) => StartUnlock(s, i, o)
    case Drop(i) => StartUnlock(s, i, Empty)
    case Unlock =>
      (match s.unlocker
       case LockingToStore => s.(mutex := TheUnlocker, unlocker := Storing)
       case Storing => s.(result := s.payload, unlocker := Publishing)
       case Publishing => s.(ready := true, unlocker := Notifying)
       case Notifying => s.(woken := s.waiter.Sleeping?, unlocker := Unlocking)
       case Unlocking => s.(mutex := Nobody, unlocker := Finished)
       case _ => s)
    case Wait =>
      (match s.waiter
       case Locking => s.(mutex := TheWaiter, waiter := Checking)
       case Checking =>
         if s.ready then s.(waiter := Reading) else s.(mutex := Nobody, waiter := Sleeping, woken := false)
       case Sleeping => s.(mutex := TheWaiter, waiter := Checking, woken := false)
       case Reading => s.(mutex := Nobody, waiter := Returned, returned := Some(s.result))
       case Returned => s)
    case Spurious => s.(mutex := TheWaiter, waiter := Checking, woken := false)
  }

  function Run(actions: seq<Action>): Option<State> {
    if actions == [] then Some(Init())
    else
      match Run(actions[..|actions| - 1])
      case None => None
      case Some(s) => if Enabled(s, actions[|actions| - 1]) then Some(Step(s, actions[|actions| - 1])) else None
  }

  predicate Owns(s: State, i: nat) { i < |s.owners| && s.owners[i] }

  /** What the unlocker was called or destroyed with by the object that owned it at that moment. */
  function Resolution(actions: seq<Action>): Option<Outcome> {
    if actions == [] then None
    else
      var init, a := actions[..|actions| - 1], actions[|actions| - 1];
      if Resolution(init).Some? then Resolution(init)
      else if Run(init).Some? && a.Call? && Owns(Run(init).value, a.i) then Some(a.o)
      else if Run(init).Some? && a.Drop? && Owns(Run(init).value, a.i) then Some(Empty)
      else None
  }

  /** The object with the ownership is assigned to. */
  predicate Forgets(s: State, a: Action) {
    || (a.AssignTo? && a.i != a.j && Owns(s, a.j))
    || (a.Overwrite? && Owns(s, a.j))
  }

  /** That happened in a run. */
  predicate Forgotten(actions: seq<Action>) {
    actions != [] &&
    var init, a := actions[..|actions| - 1], actions[|actions| - 1];
    Forgotten(init) || (Run(init).Some? && Forgets(Run(init).value, a))
  }

  ghost predicate OneOwner(owners: seq<bool>) {
    exists i :: 0 <= i < |owners| && owners[i] && forall j | 0 <= j < |owners| && j != i :: !owners[j]
  }

  ghost predicate NoOwner(owners: seq<bool>) { forall j | 0 <= j < |owners| :: !owners[j] }

  ghost predicate Inv(s: State) {
    && (if s.unlocker.Untouched? then OneOwner(s.owners) || NoOwner(s.owners) else NoOwner(s.owners))
    && (s.mutex.TheWaiter? <==> s.waiter.Checking? || s.waiter.Reading?)
    && (s.mutex.TheUnlocker? <==>
          s.unlocker.Storing? || s.unlocker.Publishing? || s.unlocker.Notifying? || s.unlocker.Unlocking?)
    && (s.ready <==> s.unlocker.Notifying? || s.unlocker.Unlocking? || s.unlocker.Finished?)
    && (s.ready || s.unlocker.Publishing? ==> s.result == s.payload)
    && (s.waiter.Reading? ==> s.unlocker.Finished?)
    && (s.waiter.Returned? ==> s.unlocker.Finished? && s.returned == Some(s.payload))
    && (!s.waiter.Returned? ==> s.returned.None?)
    && (s.woken ==> s.ready)
    && (s.waiter.Sleeping? && (s.unlocker.Unlocking? || s.unlocker.Finished?) ==> s.woken)
  }

  lemma StepPreservesInv(s: State, a: Action)
    requires Inv(s) && Enabled(s, a)
    ensures Inv(Step(s, a))
  {
    match a
    case MoveTo(i) => MovePreservesOwner(s.owners, i);
    case AssignTo(i, j) => AssignPreservesOwner(s.owners, i, j);
    case Overwrite(j) => UnlockTakesOwner(s.owners, j);
    case Call(i, _) => UnlockTakesOwner(s.owners, i);
    case Drop(i) => UnlockTakesOwner(s.owners, i);
    case _ =>
  }

  lemma AssignPreservesOwner(owners: seq<bool>, i: nat, j: nat)
    requires i < |owners| && j < |owners|
    ensures NoOwner(owners) ==> NoOwner(Assigned(owners, i, j))
    ensures OneOwner(owners) ==>
              if i != j && owners[j] then NoOwner(Assigned(owners, i, j)) else OneOwner(Assigned(owners, i, j))
  {
    var after := Assigned(owners, i, j);
    if OneOwner(owners) && i != j && !owners[j] {
      var k :| 0 <= k < |owners| && owners[k] && forall m | 0 <= m < |owners| && m != k :: !owners[m];
      var k' := if i == k then j else k;
      assert after[k'] && forall m | 0 <= m < |after| && m != k' :: !after[m];
    }
  }

  lemma MovePreservesOwner(owners: seq<bool>, i: nat)
    requires i < |owners|
    ensures NoOwner(owners) ==> NoOwner(owners[i := false] + [owners[i]])
    ensures OneOwner(owners) ==> OneOwner(owners[i := false] + [owners[i]])
  {
    var moved := owners[i := false] + [owners[i]];
    if OneOwner(owners) {
      var k :| 0 <= k < |owners| && owners[k] && forall j | 0 <= j < |owners| && j != k :: !owners[j];
      var k' := if i == k then |owners| else k;
      assert moved[k'] && forall j | 0 <= j < |moved| && j != k' :: !moved[j];
    }
  }

  lemma UnlockTakesOwner(owners: seq<bool>, i: nat)
    requires i < |owners|
    ensures NoOwner(owners) ==> !owners[i]
    ensures NoOwner(owners) ==> owners[i := false] == owners
    ensures OneOwner(owners) && owners[i] ==> NoOwner(owners[i := false])
    ensures OneOwner(owners) && !owners[i] ==> owners[i := false] == owners
  {
  }

  lemma OneIsNotNone(owners: seq<bool>)
    ensures !(OneOwner(owners) && NoOwner(owners))
  {
  }

  lemma {:induction false} RunKeepsInv(actions: seq<Action>)
    requires Run(actions).Some?
    ensures var s := Run(actions).value;
            && Inv(s)
            && (s.unlocker.Untouched? <==> Resolution(actions).None?)
            && (Resolution(actions).Some? ==> s.payload == Resolution(actions).value)
            && (s.unlocker.Untouched? && NoOwner(s.owners) <==> Forgotten(actions))
    decreases |actions|
  {
    if actions == [] {
      assert Init().owners[0];
    } else {
      var init, a := actions[..|actions| - 1], actions[|actions| - 1];
      RunKeepsInv(init);
      var s := Run(init).value;
      StepPreservesInv(s, a);
      OneIsNotNone(s.owners);
      OneIsNotNone(Step(s, a).owners);
      match a
      case Call(i, _) => UnlockTakesOwner(s.owners, i);
      case Drop(i) => UnlockTakesOwner(s.owners, i);
      case Overwrite(j) => UnlockTakesOwner(s.owners, j);
      case AssignTo(i, j) => AssignPreservesOwner(s.owners, i, j);
      case MoveTo(i) => MovePreservesOwner(s.owners, i);
      case _ =>
    }
  }

  /** The frame is used by the unlocker only while it exists: every access happens before the waiter
      returns, the assertion that the flag is not set yet holds, and so the unlock takes effect once. */
  lemma UnlockIsSafe(actions: seq<Action>)
    requires Run(actions).Some? && Enabled(Run(actions).value, Unlock)
    ensures !Run(actions).value.waiter.Returned?
    ensures Run(actions).value.unlocker.Publishing? ==> !Run(actions).value.ready
  {
    RunKeepsInv(actions);
  }

  /** In every interleaving: the waiter returns only after the unlocker stored, notified and unlocked;
      it returns what the callback was called with by the one object that had the ownership, or Empty
      if that object was destroyed first; and a sleeping waiter is never left behind. */
  lemma WaitReturnsTheResult(actions: seq<Action>)
    requires Run(actions).Some?
    ensures var s := Run(actions).value;
            && (s.waiter.Returned? ==>
                  s.unlocker.Finished? && Resolution(actions).Some? && s.returned == Some(Resolution(actions).value))
            && (s.waiter.Sleeping? && s.unlocker.Finished? ==> s.woken && Enabled(s, Wait))
  {
    RunKeepsInv(actions);
  }

  /** When a waiter is left behind, exactly: as long as nobody called or destroyed the object with the
      ownership there is still such an object, whose destruction would release the waiter, unless it was
      assigned to. After that the waiter never returns, whatever else is done. */
  lemma {:induction false} LeftBehindIffForgotten(actions: seq<Action>)
    requires Run(actions).Some? && Resolution(actions).None?
    ensures var s := Run(actions).value;
            Forgotten(actions) <==> !exists i :: 0 <= i < |s.owners| && s.owners[i]
  {
    RunKeepsInv(actions);
  }

  lemma {:induction false} ForgottenWaitsForever(actions: seq<Action>, n: nat)
    requires Run(actions).Some? && n <= |actions| && Forgotten(actions[..n])
    ensures Forgotten(actions) && Resolution(actions).None? && !Run(actions).value.waiter.Returned?
    decreases |actions|
  {
    if n == |actions| {
      assert actions[..n] == actions;
    } else {
      var init := actions[..|actions| - 1];
      assert init[..n] == actions[..n];
      ForgottenWaitsForever(init, n);
    }
    RunKeepsInv(actions);
  }

  /** The steps that are still ahead of both sides once an unlock has begun; spurious wake-ups aside. */
  function Ahead(s: State): nat {
    (match s.unlocker
     case Untouched => 30 case LockingToStore => 25 case Storing => 20 case Publishing => 15
     case Notifying => 10 case Unlocking => 5 case Finished => 0)
    + match s.waiter
      case Locking => 5 case Sleeping => 3 case Checking => if s.ready then 2 else 4
      case Reading => 1 case Returned => 0
  }

  lemma UnlockLowersAhead(s: State)
    requires Inv(s) && Enabled(s, Unlock)
    ensures Ahead(Step(s, Unlock)) < Ahead(s)
  {
  }

  lemma WaitLowersAhead(s: State)
    requires Inv(s) && Enabled(s, Wait) && !s.unlocker.Untouched?
    ensures Ahead(Step(s, Wait)) < Ahead(s)
  {
  }

  /** No deadlock: once the callback was called or destroyed, some side can take a step until the waiter
      has returned, and the steps that are ahead of them become fewer with each one. */
  lemma {:induction false} WaiterIsReleased(actions: seq<Action>)
    requires Run(actions).Some? && Resolution(actions).Some?
    ensures var s := Run(actions).value;
            && (s.waiter.Returned? || Enabled(s, Unlock) || Enabled(s, Wait))
            && (Enabled(s, Unlock) ==> Ahead(Step(s, Unlock)) < Ahead(s))
            && (Enabled(s, Wait) ==> Ahead(Step(s, Wait)) < Ahead(s))
  {
    RunKeepsInv(actions);
    var s := Run(actions).value;
    if Enabled(s, Unlock) {
      UnlockLowersAhead(s);
    }
    if Enabled(s, Wait) {
      WaitLowersAhead(s);
    }
  }

  lemma RunSnoc(actions: seq<Action>, a: Action)
    requires Run(actions).Some?
    ensures Run(actions + [a]) == if Enabled(Run(actions).value, a) then Some(Step(Run(actions).value, a)) else None
  {
    assert (actions + [a])[..|actions|] == actions;
  }

  lemma MayMake(actions: seq<Action>, a: Action)
    requires Run(actions).Some? && Enabled(Run(actions).value, a)
    ensures Run(actions + [a]).Some?
  {
    RunSnoc(actions, a);
  }

  /** Who owns the callback may do anything with any of its unlockers at any moment: move it, assign to it,
      call it or destroy it. */
  lemma AnythingMayHappen(actions: seq<Action>, i: nat, j: nat, o: Outcome)
    requires Run(actions).Some? && i < |Run(actions).value.owners|
    ensures Run(actions + [MoveTo(i)]).Some? && Run(actions + [Overwrite(i)]).Some?
    ensures j < |Run(actions).value.owners| ==> Run(actions + [AssignTo(i, j)]).Some?
    ensures Run(actions + [Drop(i)]).Some? && (!o.Empty? ==> Run(actions + [Call(i, o)]).Some?)
  {
    MayMake(actions, MoveTo(i));
    MayMake(actions, Overwrite(i));
    MayMake(actions, Drop(i));
    if j < |Run(actions).value.owners| {
      MayMake(actions, AssignTo(i, j));
    }
    if !o.Empty? {
      MayMake(actions, Call(i, o));
    }
  }

  /** The condition variable may wake the waiter by itself, which then looks at the flag again. */
  lemma WaiterMayWakeUp(actions: seq<Action>)
    requires Run(actions).Some? && Run(actions).value.waiter.Sleeping? && Run(actions).value.mutex.Nobody?
    ensures var r := Run(actions + [Spurious]); r.Some? && r.value.waiter.Checking? && r.value.mutex.TheWaiter?
  {
    RunSnoc(actions, Spurious);
  }

  /** The callback was called with an outcome, or destroyed if that is Empty. */
  predicate Given(actions: seq<Action>, o: Outcome) {
    exists a | a in actions :: if o.Empty? then a.Drop? else a.Call? && a.o == o
  }

  /** What the waiter returns was given to the callback. */
  lemma {:induction false} ReturnedWasGiven(actions: seq<Action>)
    requires Run(actions).Some? && Run(actions).value.returned.Some?
    ensures Given(actions, Run(actions).value.returned.value)
  {
    RunKeepsInv(actions);
    ResolutionWasGiven(actions);
  }

  lemma {:induction false} ResolutionWasGiven(actions: seq<Action>)
    requires Run(actions).Some? && Resolution(actions).Some?
    ensures Given(actions, Resolution(actions).value)
    decreases |actions|
  {
    var init, a := actions[..|actions| - 1], actions[|actions| - 1];
    assert actions == init + [a];
    if Resolution(init).Some? {
      ResolutionWasGiven(init);
      var o := Resolution(init).value;
      var x :| x in init && if o.Empty? then x.Drop? else x.Call? && x.o == o;
      assert x in actions;
    } else {
      assert a in actions;
    }
  }

  // ---------------------------------------------------------------------------------------
  // The unlocker object
  // ---------------------------------------------------------------------------------------

  /** What a whole `unlock` does that is not interrupted: nothing without the ownership. */
  ghost function Unlocked(s: State, a: Action): State
    requires Inv(s) && Enabled(s, a) && (a.Call? || a.Drop?) && s.mutex.Nobody?
  {
    if !s.owners[a.i] then s else FiveSteps(Step(s, a))
  }

  ghost function FiveSteps(s: State): State
    requires s.unlocker.LockingToStore? && s.mutex.Nobody?
  {
    Step(Step(Step(Step(Step(s, Unlock), Unlock), Unlock), Unlock), Unlock)
  }

  /** What the waiter keeps on its stack, the mutex aside; `model` is the state both sides are in. */
  class WaitFrame {
    var ready: bool
    var result: Outcome
    ghost var model: State

    ghost predicate Valid()
      reads this
    {
      Inv(model) && model.ready == ready && model.result == result
    }

    constructor ()
      ensures Valid() && model == Init()
    {
      ready, result := false, Empty;
      model := Init();
      new;
      RunKeepsInv([]);
    }

    /** Moves the ghost state along and keeps the invariant. */
    ghost method Proceed(a: Action)
      requires Inv(model) && Enabled(model, a)
      modifies this`model
      ensures model == Step(old(model), a) && Inv(model)
    {
      StepPreservesInv(model, a);
      model := Step(model, a);
    }
  }

  /** The callback attached to the continuable. It is moved around freely; the first call or destruction
      of the object that has the ownership unlocks the frame, everything else does nothing. */
  class UnsafeUnlocker {
    const frame: WaitFrame
    var acquired: bool
    ghost const index: nat     // its number among the unlocker objects

    ghost predicate Valid()
      reads this, frame
    {
      frame.Valid() && index < |frame.model.owners| && frame.model.owners[index] == acquired
    }

    constructor (frame: WaitFrame)
      requires frame.Valid() && frame.model == Init()
      ensures this.frame == frame && acquired && index == 0 && Valid()
    {
      this.frame := frame;
      acquired, index := true, 0;
    }

    constructor Moved(right: UnsafeUnlocker)
      requires right.Valid()
      modifies right, right.frame
      ensures frame == right.frame && Valid() && right.Valid()
      ensures frame.model == Step(old(right.frame.model), MoveTo(right.index))
      ensures acquired == old(right.acquired) && !right.acquired
    {
      frame, acquired, index := right.frame, right.acquired, |right.frame.model.owners|;
      new;
      right.acquired := false;
      frame.Proceed(MoveTo(right.index));
    }

    /** Move assignment from an unlocker of the same wait. If this object had the ownership, the waiter is
        left behind. */
    method MoveFrom(right: UnsafeUnlocker)
      requires Valid() && right.Valid() && right.frame == frame && (right == this <==> right.index == index)
      modifies this, right, frame
      ensures Valid() && right.Valid() && frame.model == Step(old(frame.model), AssignTo(right.index, index))
      ensures acquired == old(right.acquired) && (right != this ==> !right.acquired)
    {
      var was := right.acquired;
      right.acquired := false;
      acquired := was;
      frame.Proceed(AssignTo(right.index, index));
    }

    /** `a` says whether the object is called or destroyed. */
    method Unlock(o: Outcome, ghost a: Action)
      requires Valid() && frame.model.mutex.Nobody?
      requires (a == Call(index, o) && !o.Empty?) || (a == Drop(index) && o.Empty?)
      modifies this, frame
      ensures Valid() && frame.model == Unlocked(old(frame.model), a)
      ensures !acquired && (old(acquired) ==> frame.ready && frame.result == o)
    {
      if !acquired {
        return;
      }
      acquired := false;
      frame.Proceed(a);
      frame.Proceed(Action.Unlock);
      frame.result := o;
      frame.Proceed(Action.Unlock);
      assert !frame.ready;
      frame.ready := true;
      frame.Proceed(Action.Unlock);
      frame.Proceed(Action.Unlock);
      frame.Proceed(Action.Unlock);
    }

    /** The destructor. */
    method Destruct()
      requires Valid() && frame.model.mutex.Nobody?
      modifies this, frame
      ensures Valid() && frame.model == Unlocked(old(frame.model), Drop(index))
      ensures !acquired && (old(acquired) ==> frame.ready && frame.result == Empty)
    {
      Unlock(Empty, Drop(index));
    }
  }
}
