/** The wait with a time limit. The waiter may give up at any moment, so the frame is shared: the waiter
    holds it, and the unlocker, which only refers to it weakly, pins it for as long as it needs it. Time
    does not occur here; giving up is simply possible. */
module TimedWaiting {
  import opened Results
  import opened Waiting

  /** The steps of the waiter, each named after what it does next. */
  datatype Timed =
    | Testing       // load the ready flag once before waiting
    | Awaiting      // inside the wait function: until the flag is set, or until it gives up
    | LockingRw     // lock the mutex that protects the result
    | Taking        // take the result, holding that mutex
    | Releasing     // let go of the frame
    | Gone

  /** The steps of an unlock by the object that has the ownership. */
  datatype Weak =
    | Idle          // nobody unlocked yet
    | Pinning       // lock the weak reference to the frame
    | WeakLocking   // lock the mutex that protects the result
    | WeakStoring   // write the result, holding that mutex
    | WeakUnlocking // unlock it
    | WeakPublishing// store the ready flag
    | WeakNotifying // notify and let go of the frame
    | Done

  datatype Shared = Shared(
    waiter: Timed,
    unlocker: Weak,
    payload: Outcome,
    owners: seq<bool>,
    held: bool,                  // the waiter holds the frame
    pinned: bool,                // the unlocker holds the frame
    rw: Holder,
    ready: bool,
    result: Outcome,
    sawReady: bool,              // the waiter found the flag set
    returned: Option<Outcome>)

  function Start(): Shared {
    Shared(Testing, Idle, Empty, [true], true, false, Nobody, false, Empty, false, None)
  }

  datatype Event =
    | MoveOn(i: nat)                       // move unlocker i to a new object
    | Invoke(i: nat, o: Outcome)           // call unlocker i
    | Destroy(i: nat)                      // destroy unlocker i
    | UnlockStep
    | WaitStep
    | GiveUp                               // the time limit is reached

  predicate Possible(s: Shared, e: Event) {
    match e
    case MoveOn(i) => i < |s.owners|
    case Invoke(i, o) => i < |s.owners| && !o.Empty?
    case Destroy(i) => i < |s.owners|
    case UnlockStep => !s.unlocker.Idle? && !s.unlocker.Done? && (s.unlocker.WeakLocking? ==> s.rw.Nobody?)
    case WaitStep => !s.waiter.Gone? && (s.waiter.Awaiting? ==> s.ready) && (s.waiter.LockingRw? ==> s.rw.Nobody?)
    case GiveUp => s.waiter.Awaiting?
  }

  function Begin(s: Shared, i: nat, o: Outcome): Shared
    requires i < |s.owners|
  {
    if s.owners[i] then s.(owners := s.owners[i := false], unlocker := Pinning, payload := o) else s
  }

  function After(s: Shared, e: Event): Shared
    requires Possible(s, e)
  {
    match e
    case MoveOn(i) => s.(owners := s.owners[i := false] + [s.owners[i]])
    case Invoke(i, o) => Begin(s, i, o)
    case Destroy(i) => Begin(s, i, Empty)
    case UnlockStep =>
      (match s.unlocker
       case Pinning => if s.held then s.(pinned := true, unlocker := WeakLocking) else s.(unlocker := Done)
       case WeakLocking => s.(rw := TheUnlocker, unlocker := WeakStoring)
       case WeakStoring => s.(result := s.payload, unlocker := WeakUnlocking)
       case WeakUnlocking => s.(rw := Nobody, unlocker := WeakPublishing)
       case WeakPublishing => s.(ready := true, unlocker := WeakNotifying)
       case WeakNotifying => s.(pinned := false, unlocker := Done)
       case _ => s)
    case WaitStep =>
      (match s.waiter
       case Testing => if s.ready then s.(sawReady := true, waiter := LockingRw) else s.(waiter := Awaiting)
       case Awaiting => s.(sawReady := true, waiter := LockingRw)
       case LockingRw => s.(rw := TheWaiter, waiter := Taking)
       case Taking => s.(returned := Some(s.result), result := Empty, rw := Nobody, waiter := Releasing)
       case Releasing => s.(held := false, waiter := Gone)
       case Gone => s)
    case GiveUp => s.(waiter := LockingRw)
  }

  function Play(events: seq<Event>): Option<Shared> {
    if events == [] then Some(Start())
    else
      match Play(events[..|events| - 1])
      case None => None
      case Some(s) => if Possible(s, events[|events| - 1]) then Some(After(s, events[|events| - 1])) else None
  }

  /** What the unlocker was called or destroyed with by the object that owned it at that moment. */
  function Answer(events: seq<Event>): Option<Outcome> {
    if events == [] then None
    else
      var init, e := events[..|events| - 1], events[|events| - 1];
      if Answer(init).Some? || Play(init).None? then Answer(init)
      else
        var owners := Play(init).value.owners;
        if e.Invoke? && e.i < |owners| && owners[e.i] then Some(e.o)
        else if e.Destroy? && e.i < |owners| && owners[e.i] then Some(Empty)
        else None
  }

  ghost predicate Stored(u: Weak) { u.WeakUnlocking? || u.WeakPublishing? || u.WeakNotifying? || u.Done? }

  /** The next step of the unlocker is inside the frame. */
  predicate UsesFrame(u: Weak) { !u.Idle? && !u.Pinning? && !u.Done? }

  ghost predicate Consistent(s: Shared) {
    && (if s.unlocker.Idle? then OneOwner(s.owners) else NoOwner(s.owners))
    && (s.rw.TheWaiter? <==> s.waiter.Taking?)
    && (s.rw.TheUnlocker? <==> s.unlocker.WeakStoring? || s.unlocker.WeakUnlocking?)
    && (s.pinned <==> UsesFrame(s.unlocker))
    && (s.held <==> !s.waiter.Gone?)
    && (s.ready ==> s.unlocker.WeakNotifying? || s.unlocker.Done?)
    && (s.unlocker.WeakNotifying? ==> s.ready)
    && (s.sawReady ==> s.ready)
    && (s.result == Empty || (s.result == s.payload && Stored(s.unlocker)))
    && (s.waiter.Testing? || s.waiter.Awaiting? || s.waiter.LockingRw? || s.waiter.Taking? ==>
          && s.returned.None?
          && (s.ready || s.unlocker.WeakUnlocking? || s.unlocker.WeakPublishing? ==> s.result == s.payload))
    && (s.waiter.Releasing? || s.waiter.Gone? ==>
          && s.returned.Some?
          && (s.returned.value == Empty || (s.returned.value == s.payload && !s.unlocker.Idle?))
          && (s.sawReady ==> s.returned.value == s.payload))
  }

  lemma EventPreservesConsistency(s: Shared, e: Event)
    requires Consistent(s) && Possible(s, e)
    ensures Consistent(After(s, e))
  {
    match e
    case MoveOn(i) => MovePreservesOwner(s.owners, i);
    case Invoke(i, _) => UnlockTakesOwner(s.owners, i);
    case Destroy(i) => UnlockTakesOwner(s.owners, i);
    case _ =>
  }

  lemma {:induction false} PlayIsConsistent(events: seq<Event>)
    requires Play(events).Some?
    ensures var s := Play(events).value;
            && Consistent(s)
            && (s.unlocker.Idle? <==> Answer(events).None?)
            && (Answer(events).Some? ==> s.payload == Answer(events).value)
    decreases |events|
  {
    if events == [] {
      assert Start().owners[0];
    } else {
      var init, e := events[..|events| - 1], events[|events| - 1];
      PlayIsConsistent(init);
      EventPreservesConsistency(Play(init).value, e);
      if e.Invoke? || e.Destroy? {
        UnlockTakesOwner(Play(init).value.owners, e.i);
      }
    }
  }

  /** In every interleaving, with the limit reached at any moment or never: the waiter returns Empty or
      what the callback was called with, and the latter for certain if it saw the flag; the unlocker
      uses the frame only while one side holds it, and the assertion that the flag is not set holds. */
  lemma {:induction false} TimedWaitReturnsEmptyOrTheResult(events: seq<Event>)
    requires Play(events).Some?
    ensures var s := Play(events).value;
            && (s.returned.Some? && s.returned.value != Empty ==> Answer(events) == s.returned)
            && (s.returned.Some? && s.sawReady ==> Answer(events) == s.returned)
            && (s.unlocker.WeakStoring? ==> !s.ready)
            && (UsesFrame(s.unlocker) ==> s.pinned)
            && (!s.waiter.Gone? ==> s.held)
  {
    PlayIsConsistent(events);
  }

  /** How many steps are ahead of both sides at most. */
  function StepsAhead(s: Shared): nat {
    (match s.waiter
     case Testing => 5 case Awaiting => 4 case LockingRw => 3 case Taking => 2 case Releasing => 1 case Gone => 0)
    + match s.unlocker
      case Idle => 7 case Pinning => 6 case WeakLocking => 5 case WeakStoring => 4 case WeakUnlocking => 3
      case WeakPublishing => 2 case WeakNotifying => 1 case Done => 0
  }

  /** An unlocker that is through has published, unless the waiter was gone before. */
  predicate DoneIsReady(s: Shared) { s.unlocker.Done? ==> s.ready || s.waiter.Gone? }

  lemma EventKeepsDone(s: Shared, e: Event)
    requires Consistent(s) && DoneIsReady(s) && Possible(s, e)
    ensures DoneIsReady(After(s, e))
  {
  }

  lemma {:induction false} DoneMeansReady(events: seq<Event>)
    requires Play(events).Some?
    ensures DoneIsReady(Play(events).value)
    decreases |events|
  {
    if events != [] {
      var init := events[..|events| - 1];
      DoneMeansReady(init);
      PlayIsConsistent(init);
      EventKeepsDone(Play(init).value, events[|events| - 1]);
    }
  }

  /** The next steps of the two sides. */
  lemma StepLowersAhead(s: Shared, e: Event)
    requires Consistent(s) && Possible(s, e) && (e.UnlockStep? || e.WaitStep? || e.GiveUp?)
    ensures StepsAhead(After(s, e)) < StepsAhead(s)
  {
  }

  /** No deadlock: as long as a side has something to do one of them can make a step, unless the waiter waits
      for a callback that was neither called nor destroyed; and each step leaves fewer of them. The limit ends
      any waiting at once. */
  lemma TimedWaiterIsReleased(events: seq<Event>)
    requires Play(events).Some?
    ensures var s := Play(events).value;
            && (|| Play(events + [UnlockStep]).Some? || Play(events + [WaitStep]).Some?
                || (s.waiter.Gone? && (s.unlocker.Done? || s.unlocker.Idle?))
                || (s.waiter.Awaiting? && Answer(events).None? && Play(events + [GiveUp]).Some?))
            && forall e | e in {UnlockStep, WaitStep, GiveUp} && Play(events + [e]).Some? ::
                 StepsAhead(Play(events + [e]).value) < StepsAhead(s)
  {
    var s := Play(events).value;
    PlayIsConsistent(events);
    DoneMeansReady(events);
    forall e | e in {UnlockStep, WaitStep, GiveUp}
      ensures Play(events + [e]) == if Possible(s, e) then Some(After(s, e)) else None
      ensures Possible(s, e) ==> StepsAhead(After(s, e)) < StepsAhead(s)
    {
      PlaySnoc(events, e);
      if Possible(s, e) {
        StepLowersAhead(s, e);
      }
    }
  }

  /** The result is read and written only with the mutex held. The waiter takes what was stored by then, and
      Empty only if nothing was. */
  lemma TakesWhatIsStored(events: seq<Event>, e: Event)
    requires Play(events + [e]).Some? && Play(events).Some?
    ensures var s, t := Play(events).value, Play(events + [e]).value;
            && (t.result != s.result ==> s.rw.TheWaiter? || s.rw.TheUnlocker?)
            && (t.returned != s.returned ==>
                  && s.rw.TheWaiter? && s.returned.None?
                  && if s.ready || s.unlocker.WeakPublishing? then t.returned == Answer(events)
                     else t.returned == Some(Empty))
  {
    PlaySnoc(events, e);
    PlayIsConsistent(events);
    DoneMeansReady(events);
  }

  lemma PlaySnoc(events: seq<Event>, e: Event)
    requires Play(events).Some?
    ensures Play(events + [e]) == if Possible(Play(events).value, e) then Some(After(Play(events).value, e)) else None
  {
    assert (events + [e])[..|events|] == events;
  }

  /** At any moment any unlocker may be moved, called or destroyed, and as long as the waiter waits the limit
      may be reached. */
  lemma AnythingMayHappenInTime(events: seq<Event>, i: nat, o: Outcome)
    requires Play(events).Some?
    ensures var s := Play(events).value;
            && (i < |s.owners| ==>
                  && Play(events + [MoveOn(i)]) == Some(s.(owners := s.owners[i := false] + [s.owners[i]]))
                  && Play(events + [Destroy(i)]).Some?
                  && (!o.Empty? ==> Play(events + [Invoke(i, o)]).Some?))
            && (s.waiter.Awaiting? ==> Play(events + [GiveUp]) == Some(s.(waiter := LockingRw)))
  {
    PlaySnoc(events, MoveOn(i));
    PlaySnoc(events, Destroy(i));
    PlaySnoc(events, Invoke(i, o));
    PlaySnoc(events, GiveUp);
  }

  /** What a call or a destruction of the object with the ownership was, among those that were made. */
  lemma {:induction false} AnswerWasGiven(events: seq<Event>)
    requires Play(events).Some? && Answer(events).Some?
    ensures Given(events, Answer(events).value)
    decreases |events|
  {
    var init, e := events[..|events| - 1], events[|events| - 1];
    assert events == init + [e];
    if Answer(init).Some? {
      AnswerWasGiven(init);
      var o := Answer(init).value;
      var x :| x in init && if o.Empty? then x.Destroy? else x.Invoke? && x.o == o;
      assert x in events;
    } else {
      assert e in events;
    }
  }

  /** The callback was called with an outcome, or destroyed if that is Empty. */
  predicate Given(events: seq<Event>, o: Outcome) {
    exists e | e in events :: if o.Empty? then e.Destroy? else e.Invoke? && e.o == o
  }

  predicate Saw(s: Shared) { s.waiter.Testing? || s.waiter.Awaiting? || s.sawReady }

  lemma StepSaw(s: Shared, e: Event)
    requires Saw(s) && Possible(s, e) && !e.GiveUp?
    ensures Saw(After(s, e))
  {
  }

  lemma {:induction false} SawReadyUnlessGaveUp(events: seq<Event>)
    requires Play(events).Some? && GiveUp !in events
    ensures Saw(Play(events).value)
    decreases |events|
  {
    if events != [] {
      var init, e := events[..|events| - 1], events[|events| - 1];
      assert events == init + [e];
      SawReadyUnlessGaveUp(init);
      StepSaw(Play(init).value, e);
    }
  }

  /** As long as the limit is not reached the wait is a blocking one: what it returns is what the callback
      was called with, or Empty if that was destroyed. */
  lemma WithoutLimitTheResultIsReturned(events: seq<Event>)
    requires Play(events).Some? && GiveUp !in events && Play(events).value.returned.Some?
    ensures Answer(events) == Play(events).value.returned
    ensures Given(events, Play(events).value.returned.value)
  {
    TimedWaitReturnsEmptyOrTheResult(events);
    SawReadyUnlessGaveUp(events);
    PlayIsConsistent(events);
    AnswerWasGiven(events);
  }

  /** Nothing else than Empty is ever returned unless the callback was called with it. */
  lemma ResultWasGiven(events: seq<Event>)
    requires Play(events).Some?
    ensures var r := Play(events).value.returned;
            r.Some? && !r.value.Empty? ==> Given(events, r.value)
  {
    TimedWaitReturnsEmptyOrTheResult(events);
    if Answer(events).Some? {
      AnswerWasGiven(events);
    }
  }
}
