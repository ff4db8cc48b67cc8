/** The resumable traversal of a nested pack.
    A traversal may stop at any element, keep its position as a stack of cursors, and go on
    later or right inside the handler that was told about the stop. Everything here ends in one
    statement: the machine behaves as `Walk`, the plain left-to-right walk over a list. */
module AsyncTraversal {
  import opened Results

  /** A pack. `Skipped` is an element the visitor does not accept, `Element` one it accepts.
      Tuples are walked by a fold over their indices, containers by a loop. */
  datatype Pack =
    | Skipped
    | Element(id: nat)
    | Tuple(children: seq<Pack>)
    | Container(children: seq<Pack>)

  /** The accepted elements of a pack, from left to right. */
  function Elements(pack: Pack): seq<nat>
    decreases pack, 0
  {
    match pack
    case Skipped => []
    case Element(id) => [id]
    case Tuple(children) => ElementsOf(children)
    case Container(children) => ElementsOf(children)
  }

  function ElementsOf(packs: seq<Pack>): seq<nat>
    decreases packs, 1
  {
    if packs == [] then [] else Elements(packs[0]) + ElementsOf(packs[1..])
  }

  /** The number of nodes of a pack, which bounds the work a traversal can still do. */
  ghost function Size(pack: Pack): nat
    decreases pack, 0
  {
    match pack
    case Skipped => 1
    case Element(_) => 1
    case Tuple(children) => 1 + SizeOf(children)
    case Container(children) => 1 + SizeOf(children)
  }

  ghost function SizeOf(packs: seq<Pack>): nat
    decreases packs, 1
  {
    if packs == [] then 0 else Size(packs[0]) + SizeOf(packs[1..])
  }

  // ---------------------------------------------------------------------------------------
  // The specification: a walk over a plain list of elements
  // ---------------------------------------------------------------------------------------

  /** What the visitor sees and does. `left` is what the resumption handed to the visitor with a
      detach still covers; `Resumed` is the call of that resumption. */
  datatype Event =
    | Visited(id: nat, proceed: bool)
    | Detached(id: nat, left: seq<nat>)
    | Resumed
    | Completed

  /** A visitor is arbitrary: each answer may depend on everything it has seen so far.
      `proceed` answers a visit, `reenter` says whether the detach handler resumes at once. */
  datatype Visitor = Visitor(proceed: (seq<Event>, nat) -> bool, reenter: seq<Event> -> bool)

  /** Where a burst of traversal ends: completed, or paused with these elements still to come. */
  datatype Walked = Walked(log: seq<Event>, paused: Option<seq<nat>>)

  function Walk(v: Visitor, elements: seq<nat>, log: seq<Event>): Walked {
    if elements == [] then
      Walked(log + [Completed], None)
    else
      var id, rest := elements[0], elements[1..];
      var go := v.proceed(log, id);
      var log := log + [Visited(id, go)];
      if go then
        Walk(v, rest, log)
      else
        var log := log + [Detached(id, rest)];
        if v.reenter(log) then Walk(v, rest, log + [Resumed]) else Walked(log, Some(rest))
  }

  /** Calling the kept resumption. */
  function Later(v: Visitor, w: Walked): Walked
    requires w.paused.Some?
  {
    Walk(v, w.paused.value, w.log + [Resumed])
  }

  /** Calling the kept resumption `n` more times (or until nothing is left to resume). */
  function ResumedTimes(v: Visitor, w: Walked, n: nat): Walked
    decreases n
  {
    if n == 0 || w.paused.None? then w else ResumedTimes(v, Later(v, w), n - 1)
  }

  /** The visits of a trace in order. */
  function Visits(log: seq<Event>): seq<nat> {
    if log == [] then []
    else Visits(log[..|log| - 1]) + VisitOf(log[|log| - 1])
  }

  function VisitOf(e: Event): seq<nat> {
    if e.Visited? then [e.id] else []
  }

  function Left(w: Walked): seq<nat> {
    match w.paused case None => [] case Some(rest) => rest
  }

  /** Either the last event is the only completion, or nothing completed and the last event is the
      detach whose resumption was kept. */
  ghost predicate EndsRight(w: Walked) {
    && w.log != []
    && var last := w.log[|w.log| - 1];
       match w.paused
       case None => last == Completed && Completed !in w.log[..|w.log| - 1]
       case Some(rest) => last.Detached? && last.left == rest && Completed !in w.log
  }

  /** Each event fits the one before it: a visit that answered false is followed by the detach of
      that element, a detach by nothing but its resumption; and at every detach, the visits made so
      far and the elements handed to the resumption are the pack. */
  ghost predicate Faithful(whole: seq<nat>, log: seq<Event>) {
    forall i | 0 <= i < |log| :: FaithfulAt(whole, log[..i], log[i])
  }

  ghost predicate FaithfulAt(whole: seq<nat>, before: seq<Event>, e: Event) {
    var previous := if before == [] then None else Some(before[|before| - 1]);
    match e
    case Visited(_, _) => Idle(previous)
    case Detached(id, left) => previous == Some(Visited(id, false)) && Visits(before) + left == whole
    case Resumed => previous.Some? && previous.value.Detached?
    case Completed => Idle(previous)
  }

  /** The last event does not call for a particular next one. */
  ghost predicate Idle(previous: Option<Event>) {
    match previous
    case Some(Visited(_, proceed)) => proceed
    case Some(Detached(_, _)) => false
    case _ => true
  }

  function Last(log: seq<Event>): Option<Event> {
    if log == [] then None else Some(log[|log| - 1])
  }

  lemma {:induction false} VisitsSnoc(log: seq<Event>, e: Event)
    ensures Visits(log + [e]) == Visits(log) + VisitOf(e)
  {
    assert (log + [e])[..|log|] == log;
  }

  lemma FaithfulSnoc(whole: seq<nat>, log: seq<Event>, e: Event)
    requires Faithful(whole, log) && FaithfulAt(whole, log, e)
    ensures Faithful(whole, log + [e])
  {
    var log' := log + [e];
    forall i | 0 <= i < |log'|
      ensures FaithfulAt(whole, log'[..i], log'[i])
    {
      if i < |log| {
        assert FaithfulAt(whole, log[..i], log[i]);
        assert log'[..i] == log[..i];
      } else {
        assert log'[..i] == log;
      }
    }
  }

  lemma {:induction false} WalkEndsRight(v: Visitor, elements: seq<nat>, log: seq<Event>)
    requires Completed !in log
    ensures EndsRight(Walk(v, elements, log))
    decreases |elements|
  {
    if elements == [] {
      assert (log + [Completed])[..|log|] == log;
    } else {
      var id, rest := elements[0], elements[1..];
      var go := v.proceed(log, id);
      var log1 := log + [Visited(id, go)];
      if go {
        WalkEndsRight(v, rest, log1);
      } else {
        var log2 := log1 + [Detached(id, rest)];
        if v.reenter(log2) {
          WalkEndsRight(v, rest, log2 + [Resumed]);
        }
      }
    }
  }

  /** The trace so far is faithful and the elements `rest` are still to come. */
  ghost predicate Midway(whole: seq<nat>, log: seq<Event>, rest: seq<nat>) {
    Visits(log) + rest == whole && Faithful(whole, log)
  }

  lemma {:induction false} MidwayVisit(whole: seq<nat>, log: seq<Event>, elements: seq<nat>, go: bool)
    requires elements != [] && Midway(whole, log, elements) && Idle(Last(log))
    ensures Midway(whole, log + [Visited(elements[0], go)], elements[1..])
  {
    VisitsSnoc(log, Visited(elements[0], go));
    FaithfulSnoc(whole, log, Visited(elements[0], go));
    assert elements == [elements[0]] + elements[1..];
  }

  lemma MidwayDetach(whole: seq<nat>, log: seq<Event>, id: nat, rest: seq<nat>)
    requires Midway(whole, log, rest) && Last(log) == Some(Visited(id, false))
    ensures Midway(whole, log + [Detached(id, rest)], rest)
  {
    VisitsSnoc(log, Detached(id, rest));
    FaithfulSnoc(whole, log, Detached(id, rest));
  }

  lemma MidwayResume(whole: seq<nat>, log: seq<Event>, rest: seq<nat>)
    requires Midway(whole, log, rest) && Last(log).Some? && Last(log).value.Detached?
    ensures Midway(whole, log + [Resumed], rest)
  {
    VisitsSnoc(log, Resumed);
    FaithfulSnoc(whole, log, Resumed);
  }

  lemma {:induction false} WalkIsFaithful(v: Visitor, whole: seq<nat>, elements: seq<nat>, log: seq<Event>)
    requires Midway(whole, log, elements) && Idle(Last(log))
    ensures var w := Walk(v, elements, log); Midway(whole, w.log, Left(w))
    decreases |elements|
  {
    if elements == [] {
      VisitsSnoc(log, Completed);
      FaithfulSnoc(whole, log, Completed);
    } else {
      var id, rest := elements[0], elements[1..];
      var go := v.proceed(log, id);
      var log1 := log + [Visited(id, go)];
      MidwayVisit(whole, log, elements, go);
      if go {
        WalkIsFaithful(v, whole, rest, log1);
      } else {
        var log2 := log1 + [Detached(id, rest)];
        MidwayDetach(whole, log1, id, rest);
        if v.reenter(log2) {
          MidwayResume(whole, log2, rest);
          WalkIsFaithful(v, whole, rest, log2 + [Resumed]);
        } else {
          assert Walk(v, elements, log) == Walked(log2, Some(rest));
        }
      }
    }
  }

  lemma {:induction false} WalkShrinks(v: Visitor, elements: seq<nat>, log: seq<Event>)
    ensures var w := Walk(v, elements, log); w.paused.None? || |Left(w)| < |elements|
    decreases |elements|
  {
    if elements != [] {
      var id, rest := elements[0], elements[1..];
      var log1 := log + [Visited(id, v.proceed(log, id))];
      if v.proceed(log, id) {
        WalkShrinks(v, rest, log1);
      } else if v.reenter(log1 + [Detached(id, rest)]) {
        WalkShrinks(v, rest, log1 + [Detached(id, rest)] + [Resumed]);
      }
    }
  }

  /** Where every burst ends: nothing was skipped, repeated or reordered, whatever the visitor
      answered; completion is the last event, and happens exactly when nothing is left. */
  ghost predicate Sound(whole: seq<nat>, w: Walked) {
    Midway(whole, w.log, Left(w)) && EndsRight(w)
  }

  /** Calling the kept resumption later: the same, and strictly less is left. */
  lemma LaterIsSound(v: Visitor, whole: seq<nat>, w: Walked)
    requires w.paused.Some? && Sound(whole, w)
    ensures var w' := Later(v, w);
            Sound(whole, w') && (w'.paused.None? || |Left(w')| < |Left(w)|)
  {
    MidwayResume(whole, w.log, w.paused.value);
    WalkShrinks(v, w.paused.value, w.log + [Resumed]);
    WalkEndsRight(v, w.paused.value, w.log + [Resumed]);
    WalkIsFaithful(v, whole, w.paused.value, w.log + [Resumed]);
  }

  /** Every run, however the visitor answers and however often the resumption is called: each
      accepted element is visited at most once and in order, and a dropped resumption leaves a
      trace without completion; enough resumptions always complete. */
  lemma {:induction false} EveryRunVisitsInOrder(v: Visitor, whole: seq<nat>, n: nat)
    ensures var w := ResumedTimes(v, Walk(v, whole, []), n);
            Sound(whole, w) && (|whole| < n ==> w.paused.None?)
  {
    WalkShrinks(v, whole, []);
    WalkEndsRight(v, whole, []);
    WalkIsFaithful(v, whole, whole, []);
    ResumedTimesIsSound(v, whole, Walk(v, whole, []), n);
  }

  /** What every resume keeps is kept by any number of them. */
  lemma {:induction false} ResumedTimesKeeps(v: Visitor, keeps: Walked -> bool, w: Walked, n: nat)
    requires keeps(w)
    requires forall u | keeps(u) && u.paused.Some? ::
               keeps(Later(v, u)) && (Later(v, u).paused.None? || |Left(Later(v, u))| < |Left(u)|)
    ensures keeps(ResumedTimes(v, w, n))
    ensures |Left(w)| < n ==> ResumedTimes(v, w, n).paused.None?
    decreases n
  {
    if n > 0 && w.paused.Some? {
      ResumedTimesKeeps(v, keeps, Later(v, w), n - 1);
    }
  }

  lemma ResumedTimesIsSound(v: Visitor, whole: seq<nat>, w: Walked, n: nat)
    requires Sound(whole, w)
    ensures Sound(whole, ResumedTimes(v, w, n))
    ensures |Left(w)| < n ==> ResumedTimes(v, w, n).paused.None?
  {
    var keeps := (u: Walked) => Sound(whole, u);
    forall u | keeps(u) && u.paused.Some?
      ensures keeps(Later(v, u)) && (Later(v, u).paused.None? || |Left(Later(v, u))| < |Left(u)|)
    {
      LaterIsSound(v, whole, u);
    }
    ResumedTimesKeeps(v, keeps, w, n);
  }

  /** Resuming inside the handler and resuming later are indistinguishable to the elements:
      if every stop is resumed, the visits are the same as if no stop had happened. */
  lemma {:induction false} VisitsIndependentOfTheVisitor(v: Visitor, u: Visitor, whole: seq<nat>)
    ensures Visits(ResumedTimes(v, Walk(v, whole, []), |whole| + 1).log)
         == Visits(ResumedTimes(u, Walk(u, whole, []), |whole| + 1).log)
         == whole
  {
    EveryRunVisitsInOrder(v, whole, |whole| + 1);
    EveryRunVisitsInOrder(u, whole, |whole| + 1);
    assert forall t: seq<nat> :: t + [] == t;
  }

  // ---------------------------------------------------------------------------------------
  // The machine
  // ---------------------------------------------------------------------------------------

  /** A position inside the children of a tuple or container. */
  datatype Cursor = Cursor(target: seq<Pack>, at: nat, dynamic: bool) {

    predicate Valid() { at <= |target| }

    predicate IsFinished() { at == |target| }

    function Current(): Pack
      requires at < |target|
    {
      target[at]
    }

    function Next(): Cursor { this.(at := at + 1) }

    function Remaining(): seq<nat>
      requires Valid()
    {
      ElementsOf(target[at..])
    }

    ghost function Work(): nat
      requires Valid()
    {
      SizeOf(target[at..])
    }
  }

  /** The parents of a cursor stand on the element that is being descended into. */
  ghost predicate Parents(hierarchy: seq<Cursor>) {
    forall c | c in hierarchy :: c.at < |c.target|
  }

  /** What is left once the current child of every parent is done. */
  function AfterParents(hierarchy: seq<Cursor>): seq<nat>
    requires Parents(hierarchy)
  {
    if hierarchy == [] then [] else hierarchy[0].Next().Remaining() + AfterParents(hierarchy[1..])
  }

  ghost function WorkAfter(hierarchy: seq<Cursor>): nat
    requires Parents(hierarchy)
  {
    if hierarchy == [] then 0 else hierarchy[0].Next().Work() + WorkAfter(hierarchy[1..])
  }

  /** A saved state: the top cursor is already advanced, its parents are not. */
  ghost predicate Saved(stack: seq<Cursor>) {
    stack != [] && stack[0].Valid() && Parents(stack[1..])
  }

  function StackElements(stack: seq<Cursor>): seq<nat>
    requires Saved(stack)
  {
    stack[0].Remaining() + AfterParents(stack[1..])
  }

  ghost function StackWork(stack: seq<Cursor>): nat
    requires Saved(stack)
  {
    stack[0].Work() + WorkAfter(stack[1..])
  }

  lemma Unfold(c: Cursor)
    requires c.at < |c.target|
    ensures c.Remaining() == Elements(c.Current()) + c.Next().Remaining()
    ensures c.Work() == Size(c.Current()) + c.Next().Work()
  {
    assert c.target[c.at..][1..] == c.target[c.at + 1..];
  }

  /** The flag that a resumption and all the loops it started share by reference. */
  class DetachFlag {
    var detached: bool

    constructor ()
      ensures !detached
    {
      detached := false;
    }
  }

  /** The heap allocated frame: the pack, the visitor with what it has seen, the completion
      flag, and the resumption which the detach handler kept for later. */
  class Frame {
    const visitor: Visitor
    const args: seq<Pack>
    var log: seq<Event>
    var finished: bool
    var pending: Option<seq<Cursor>>
    ghost var goal: Walked
    ghost var loop: DetachFlag?     // the flag of the loops that were started last

    /** No loop is running over the pack. */
    ghost predicate Idle()
      reads this, loop
    {
      loop == null || loop.detached
    }

    /** With `rest` still to come, the walk of the rest ends in the goal. */
    ghost predicate Ahead(rest: seq<nat>)
      reads this
    {
      !finished && pending.None? && Walk(visitor, rest, log) == goal
    }

    /** Traversing: the loops under `flag` are the ones that are running. */
    ghost predicate Running(rest: seq<nat>, flag: DetachFlag)
      reads this, flag
    {
      loop == flag && !flag.detached && Ahead(rest)
    }

    /** The goal is reached: completed, or paused with the right stack. */
    ghost predicate Settled()
      reads this, loop
    {
      && Idle()
      && log == goal.log
      && match goal.paused
         case None => finished && pending.None?
         case Some(rest) => !finished && pending.Some? && Saved(pending.value) && StackElements(pending.value) == rest
    }

    constructor (visitor: Visitor, args: seq<Pack>)
      ensures this.visitor == visitor && this.args == args
      ensures !finished && log == [] && pending.None?
      ensures Ahead(ElementsOf(args)) && Idle()
    {
      this.visitor := visitor;
      this.args := args;
      log := [];
      finished := false;
      pending := None;
      goal := Walk(visitor, ElementsOf(args), []);
      loop := null;
    }

    /** Calls the visitor with an element. */
    method Visit(id: nat) returns (go: bool)
      modifies this`log
      ensures go == visitor.proceed(old(log), id)
      ensures log == old(log) + [Visited(id, go)]
    {
      go := visitor.proceed(log, id);
      log := log + [Visited(id, go)];
    }

    method AsyncComplete()
      requires Ahead([]) && Idle()
      modifies this
      ensures goal == old(goal) && Settled()
    {
      assert !finished;
      finished := true;
      log := log + [Completed];
    }

    /** Hands the element and a resumption of `stack` to the visitor, which either resumes inside
        the handler or keeps the resumption. By then the loops around it are told to stop, so that
        the ones which a resumption starts are the only ones. */
    method AsyncContinue(id: nat, stack: seq<Cursor>)
      requires Saved(stack) && Idle()
      requires !finished && pending.None?
      requires var log' := log + [Detached(id, StackElements(stack))];
               goal == if visitor.reenter(log') then Walk(visitor, StackElements(stack), log' + [Resumed])
                       else Walked(log', Some(StackElements(stack)))
      modifies this
      ensures goal == old(goal) && Settled()
      decreases StackWork(stack), 5, 0
    {
      log := log + [Detached(id, StackElements(stack))];
      if visitor.reenter(log) {
        log := log + [Resumed];
        Resume(stack);
      } else {
        pending := Some(stack);
      }
    }

    /** The call operator of a resumption: a new flag, then the saved state. */
    method Resume(stack: seq<Cursor>)
      requires Saved(stack) && Ahead(StackElements(stack)) && Idle()
      modifies this
      ensures goal == old(goal) && Settled()
      decreases StackWork(stack), 4, 0
    {
      var flag := new DetachFlag();
      loop := flag;
      Next(flag, stack);
    }

    /** Continues the top cursor, and then each parent one to the right, until something below
        detached. */
    method Next(flag: DetachFlag, stack: seq<Cursor>)
      requires Saved(stack) && Running(StackElements(stack), flag)
      modifies this, flag
      ensures goal == old(goal) && Settled()
      decreases StackWork(stack), 3, |stack|
    {
      var current, hierarchy := stack[0], stack[1..];
      if !current.IsFinished() {
        AsyncTraverse(current, hierarchy, flag);
        if flag.detached {
          return;
        }
      }
      assert Running(AfterParents(hierarchy), flag) by {
        assert current.IsFinished() ==> StackElements(stack) == AfterParents(hierarchy);
      }
      if hierarchy == [] {
        loop := null; // none is left
        AsyncComplete();
      } else {
        var popped := [hierarchy[0].Next()] + hierarchy[1..];
        assert popped[1..] == hierarchy[1..] && StackElements(popped) == AfterParents(hierarchy);
        Next(flag, popped);
      }
    }

    /** Traverses what is left of a tuple or of a container. */
    method AsyncTraverse(range: Cursor, hierarchy: seq<Cursor>, flag: DetachFlag)
      requires range.Valid() && Parents(hierarchy)
      requires Running(range.Remaining() + AfterParents(hierarchy), flag)
      modifies this, flag
      ensures goal == old(goal)
      ensures if flag.detached then Settled() else Running(AfterParents(hierarchy), flag)
      decreases range.Work() + WorkAfter(hierarchy), 2, 0
    {
      var current := range;
      if range.dynamic {
        if !flag.detached {
          while !current.IsFinished()
            invariant current.Valid() && !flag.detached && goal == old(goal)
            invariant current.Work() <= range.Work()
            invariant Running(current.Remaining() + AfterParents(hierarchy), flag)
            decreases current.Work()
          {
            Unfold(current);
            AsyncTraverseOne(current, hierarchy, flag);
            if flag.detached { // test before increment
              break;
            }
            current := current.Next();
          }
        }
      } else {
        while current.at < |current.target|
          invariant current.Valid() && goal == old(goal)
          invariant current.Work() <= range.Work()
          invariant if flag.detached then Settled() else Running(current.Remaining() + AfterParents(hierarchy), flag)
          decreases |current.target| - current.at
        {
          Unfold(current);
          if !flag.detached {
            AsyncTraverseOne(current, hierarchy, flag);
          }
          current := current.Next();
        }
      }
      assert current.IsFinished() ==> current.Remaining() + AfterParents(hierarchy) == AfterParents(hierarchy);
    }

    /** Traverses the element a cursor stands on. */
    method AsyncTraverseOne(current: Cursor, hierarchy: seq<Cursor>, flag: DetachFlag)
      requires current.at < |current.target| && Parents(hierarchy)
      requires Running(current.Remaining() + AfterParents(hierarchy), flag)
      modifies this, flag
      ensures goal == old(goal)
      ensures if flag.detached then Settled() else Running(current.Next().Remaining() + AfterParents(hierarchy), flag)
      decreases current.Work() + WorkAfter(hierarchy), 1, 0
    {
      Unfold(current);
      ghost var rest := current.Next().Remaining() + AfterParents(hierarchy);
      match current.Current()
      case Skipped =>
        assert current.Remaining() + AfterParents(hierarchy) == rest;
      case Element(id) =>
        assert current.Remaining() + AfterParents(hierarchy) == [id] + rest;
        var go := Visit(id);
        if !go {
          var saved := [current.Next()] + hierarchy;
          assert saved[1..] == hierarchy;
          Detach(flag);
          AsyncContinue(id, saved);
        }
      case Tuple(children) =>
        Fork(Cursor(children, 0, false), current, hierarchy, flag);
      case Container(children) =>
        Fork(Cursor(children, 0, true), current, hierarchy, flag);
    }

    method Detach(flag: DetachFlag)
      requires !flag.detached
      modifies flag
      ensures flag.detached
    {
      flag.detached := true;
    }

    /** Traverses the children of the element `parent` stands on. */
    method Fork(child: Cursor, parent: Cursor, hierarchy: seq<Cursor>, flag: DetachFlag)
      requires parent.at < |parent.target| && Parents(hierarchy)
      requires child.Valid() && child.Work() < Size(parent.Current())
      requires Running(child.Remaining() + parent.Next().Remaining() + AfterParents(hierarchy), flag)
      modifies this, flag
      ensures goal == old(goal)
      ensures if flag.detached then Settled() else Running(parent.Next().Remaining() + AfterParents(hierarchy), flag)
      decreases child.Work() + parent.Next().Work() + WorkAfter(hierarchy), 6, 0
    {
      var pushed := [parent] + hierarchy;
      assert pushed[1..] == hierarchy;
      assert child.Remaining() + AfterParents(pushed)
          == child.Remaining() + parent.Next().Remaining() + AfterParents(hierarchy);
      AsyncTraverse(child, pushed, flag);
    }

    /** Calls the resumption that the visitor kept. */
    method ResumePending()
      requires Settled() && pending.Some?
      modifies this
      ensures Settled() && goal == Later(visitor, old(goal))
    {
      var stack := pending.value;
      goal := Later(visitor, goal);
      log := log + [Resumed];
      pending := None;
      Resume(stack);
    }
  }

  /** Starts the traversal of a pack: the frame ends where the plain walk ends. */
  method ApplyPackTransformAsync(visitor: Visitor, args: seq<Pack>) returns (frame: Frame)
    ensures fresh(frame) && frame.visitor == visitor && frame.args == args
    ensures frame.Settled() && frame.goal == Walk(visitor, ElementsOf(args), [])
  {
    frame := new Frame(visitor, args);
    var state := [Cursor(args, 0, false)];
    assert args[0..] == args && StackElements(state) == ElementsOf(args);
    frame.Resume(state);
  }

  // ---------------------------------------------------------------------------------------
  // From left to right
  // ---------------------------------------------------------------------------------------

  function Children(pack: Pack): seq<Pack> {
    match pack case Tuple(children) => children case Container(children) => children case _ => []
  }

  /** Going down into the given children one arrives at an accepted element. */
  predicate At(pack: Pack, path: seq<nat>, id: nat)
    decreases |path|
  {
    if path == [] then pack == Element(id)
    else path[0] < |Children(pack)| && At(Children(pack)[path[0]], path[1..], id)
  }

  /** Where the element at a path comes among all elements. */
  function Place(pack: Pack, path: seq<nat>): nat
    decreases |path|
  {
    if path == [] || path[0] >= |Children(pack)| then 0
    else |ElementsOf(Children(pack)[..path[0]])| + Place(Children(pack)[path[0]], path[1..])
  }

  lemma {:induction false} ElementsSplit(xs: seq<Pack>, ys: seq<Pack>)
    ensures ElementsOf(xs + ys) == ElementsOf(xs) + ElementsOf(ys)
  {
    if xs == [] {
      assert xs + ys == ys;
    } else {
      assert (xs + ys)[1..] == xs[1..] + ys;
      ElementsSplit(xs[1..], ys);
      Joins(Elements(xs[0]), ElementsOf(xs[1..]), ElementsOf(ys));
    }
  }

  lemma ElementsAround(packs: seq<Pack>, i: nat)
    requires i < |packs|
    ensures ElementsOf(packs) == ElementsOf(packs[..i]) + Elements(packs[i]) + ElementsOf(packs[i + 1..])
  {
    assert packs == packs[..i] + packs[i..] && packs[i..][1..] == packs[i + 1..];
    ElementsSplit(packs[..i], packs[i..]);
    Joins(ElementsOf(packs[..i]), Elements(packs[i]), ElementsOf(packs[i + 1..]));
  }

  /** The element at each path is among the elements, at its place. */
  lemma {:induction false} ElementIsAtItsPlace(pack: Pack, path: seq<nat>, id: nat)
    requires At(pack, path, id)
    ensures Place(pack, path) < |Elements(pack)| && Elements(pack)[Place(pack, path)] == id
    decreases |path|
  {
    if path != [] {
      ElementsAround(Children(pack), path[0]);
      ElementIsAtItsPlace(Children(pack)[path[0]], path[1..], id);
    }
  }

  /** The elements come in the order of their paths, from left to right: of two paths that part after `k`
      steps, the element at the one that goes on to the left is the earlier one. */
  lemma {:induction false} PlacesAreInOrder(pack: Pack, p: seq<nat>, x: nat, q: seq<nat>, y: nat, k: nat)
    requires At(pack, p, x) && At(pack, q, y)
    requires k < |p| && k < |q| && p[..k] == q[..k] && p[k] < q[k]
    ensures Place(pack, p) < Place(pack, q)
    decreases k
  {
    var children, i, j := Children(pack), p[0], q[0];
    if k > 0 {
      assert p[..k][0] == q[..k][0] && p[1..][..k - 1] == p[..k][1..] && q[1..][..k - 1] == q[..k][1..];
      PlacesAreInOrder(children[i], p[1..], x, q[1..], y, k - 1);
    } else {
      ElementIsAtItsPlace(children[i], p[1..], x);
      ElementsAround(children[..j], i);
      assert children[..j][..i] == children[..i];
    }
  }

  /** Every element is at some path. */
  lemma {:induction false} EveryElementHasAPath(pack: Pack, k: nat) returns (path: seq<nat>)
    requires k < |Elements(pack)|
    ensures At(pack, path, Elements(pack)[k]) && Place(pack, path) == k
    decreases pack, 1
  {
    if pack.Element? {
      path := [];
    } else {
      var i, rest := ChildWith(Children(pack), k);
      ElementsAround(Children(pack), i);
      var below := EveryElementHasAPath(Children(pack)[i], rest);
      path := [i] + below;
      assert path[1..] == below;
    }
  }

  lemma {:induction false} ChildWith(packs: seq<Pack>, k: nat) returns (i: nat, rest: nat)
    requires k < |ElementsOf(packs)|
    ensures i < |packs| && rest < |Elements(packs[i])| && k == |ElementsOf(packs[..i])| + rest
    decreases |packs|
  {
    if k < |Elements(packs[0])| {
      i, rest := 0, k;
    } else {
      var j, r := ChildWith(packs[1..], k - |Elements(packs[0])|);
      i, rest := j + 1, r;
      assert packs[..j + 1][1..] == packs[1..][..j];
    }
  }
}
