/** Sequential connections. `when_seq` drives the resumable traversal over the boxes of a pack;
    `>>` nests handlers. Both do what `Sequentially` says: start one continuable after another,
    gather their values in pack order, stop at the first that fails. */
module Sequential {
  import opened Results
  import Async = AsyncTraversal
  import Chain = Chaining

  /** A connected continuable: ready with its values, or asynchronous; an asynchronous one either
      resolves while it is being started (`inPlace`), or at some later point, or never (`Empty`). */
  datatype Conn = Ready(args: seq<Arg>) | Asynchronous(outcome: Outcome, inPlace: bool)
  {
    function Resolution(): Outcome {
      match this case Ready(args) => Value(args) case Asynchronous(o, _) => o
    }
  }

  /** The connected continuables by the number of their box. */
  type Conns = nat -> Conn

  /** What happens to the continuables of a connection. */
  datatype Happening = Starts(id: nat) | Resolves(id: nat, outcome: Outcome)

  /** Everything that happened, in order, and what the callback was called with. */
  datatype Observed = Observed(events: seq<Happening>, delivered: seq<Outcome>)

  /** The continuables that were started, in order. */
  function StartsIn(events: seq<Happening>): seq<nat> {
    if events == [] then []
    else (if events[0].Starts? then [events[0].id] else []) + StartsIn(events[1..])
  }

  /** The continuables that were resolved, in order. */
  function ResolvedIn(events: seq<Happening>): seq<nat> {
    if events == [] then []
    else (if events[0].Resolves? then [events[0].id] else []) + ResolvedIn(events[1..])
  }

  // ---------------------------------------------------------------------------------------
  // The specification
  // ---------------------------------------------------------------------------------------

  /** One continuable after another: its start, unless it is ready, and its resolution, if any. */
  function Sequentially(conns: Conns, order: seq<nat>, gathered: seq<Arg>): Observed {
    if order == [] then
      Observed([], [Value(gathered)])
    else
      match conns(order[0]).Resolution()
      case Value(args) =>
        var rest := Sequentially(conns, order[1..], gathered + args);
        Observed(Turn(conns, order[0]) + rest.events, rest.delivered)
      case Exception(e) => Observed(Turn(conns, order[0]), [Exception(e)])
      case Empty => Observed(Turn(conns, order[0]), [])
  }

  function Turn(conns: Conns, id: nat): seq<Happening> {
    Begins(conns, id) + Ends(id, conns(id).Resolution())
  }

  function Begins(conns: Conns, id: nat): seq<Happening> { if conns(id).Ready? then [] else [Starts(id)] }

  function Ends(id: nat, o: Outcome): seq<Happening> { if o.Empty? then [] else [Resolves(id, o)] }

  // ---------------------------------------------------------------------------------------
  // when_seq: the visitor of the resumable traversal
  // ---------------------------------------------------------------------------------------

  /** The dispatch visitor: a ready box is resolved at its visit, any other one is detached, and its
      handler calls the resumption as soon as the continuable resolved with values. */
  function Visitor(conns: Conns): Async.Visitor {
    Async.Visitor(
      (log: seq<Async.Event>, id: nat) => conns(id).Ready?,
      (log: seq<Async.Event>) => log != [] && ReentersAfter(conns, log[|log| - 1]))
  }

  predicate ReentersAfter(conns: Conns, e: Async.Event) {
    e.Detached? && conns(e.id).Asynchronous? && conns(e.id).inPlace && conns(e.id).outcome.Value?
  }

  /** The assignment made by an event: a ready box is assigned by its visit, any other one by its
      handler right before that calls the resumption. */
  function Store(conns: Conns, boxes: map<nat, seq<Arg>>, previous: Option<Async.Event>, e: Async.Event)
    : map<nat, seq<Arg>>
  {
    if e.Visited? && conns(e.id).Ready? then
      boxes[e.id := conns(e.id).args]
    else if e.Resumed? && previous.Some? && previous.value.Detached?
            && conns(previous.value.id).Resolution().Value? then
      boxes[previous.value.id := conns(previous.value.id).Resolution().args]
    else
      boxes
  }

  /** What the boxes hold after a trace. */
  function Boxes(conns: Conns, log: seq<Async.Event>): map<nat, seq<Arg>> {
    if log == [] then map[]
    else
      var before := log[..|log| - 1];
      Store(conns, Boxes(conns, before), Async.Last(before), log[|log| - 1])
  }

  /** What a trace of the traversal means for the continuables: every detach fetches one from its box and
      runs it, the visit of a ready box resolves it, and any other one has resolved when it resumes. */
  function History(conns: Conns, log: seq<Async.Event>): seq<Happening> {
    if log == [] then []
    else
      var before := log[..|log| - 1];
      History(conns, before) + Means(conns, Async.Last(before), log[|log| - 1])
  }

  function Means(conns: Conns, previous: Option<Async.Event>, e: Async.Event): seq<Happening> {
    match e
    case Visited(id, _) => if conns(id).Ready? then [Resolves(id, conns(id).Resolution())] else []
    case Detached(id, _) => [Starts(id)]
    case Resumed =>
      if previous.Some? && previous.value.Detached? then
        [Resolves(previous.value.id, conns(previous.value.id).Resolution())]
      else []
    case Completed => []
  }

  /** The values of the boxes in pack order; none if some box was never assigned. */
  function Unbox(boxes: map<nat, seq<Arg>>, order: seq<nat>): Option<seq<Arg>> {
    if order == [] then Some([])
    else
      var rest := Unbox(boxes, order[1..]);
      if order[0] in boxes && rest.Some? then Some(boxes[order[0]] + rest.value) else None
  }

  /** The whole life of a connection, from the state `w` of its traversal: a completion calls the
      callback with the boxes, and at a pause the environment resolves the continuable of the last
      detach, which resumes the traversal or fails the callback. */
  function Play(conns: Conns, order: seq<nat>, w: Async.Walked): Observed
    requires Async.EndsRight(w)
    decreases if w.paused.None? then 0 else |w.paused.value| + 1
  {
    match w.paused
    case None =>
      var args := Unbox(Boxes(conns, w.log), order);
      Observed(History(conns, w.log), if args.Some? then [Value(args.value)] else [])
    case Some(rest) =>
      var resumed := w.log + [Async.Resumed];
      var id := w.log[|w.log| - 1].id;
      match conns(id).Resolution()
      case Value(_) =>
        Async.WalkShrinks(Visitor(conns), rest, resumed);
        Async.WalkEndsRight(Visitor(conns), rest, resumed);
        Play(conns, order, Async.Later(Visitor(conns), w))
      case Exception(e) => Observed(History(conns, w.log) + [Resolves(id, Exception(e))], [Exception(e)])
      case Empty => Observed(History(conns, w.log), [])
  }

  /** The connection from the point on where `rest` is still to be traversed. */
  function PlayFrom(conns: Conns, order: seq<nat>, rest: seq<nat>, log: seq<Async.Event>): Observed
    requires Async.Completed !in log
  {
    Async.WalkEndsRight(Visitor(conns), rest, log);
    Play(conns, order, Async.Walk(Visitor(conns), rest, log))
  }

  /** The connection of a pack whose boxes are `order`, from left to right. */
  function WhenSeq(conns: Conns, order: seq<nat>): Observed {
    PlayFrom(conns, order, order, [])
  }

  // ---------------------------------------------------------------------------------------
  // when_seq meets the specification
  // ---------------------------------------------------------------------------------------

  function Values(conns: Conns, order: seq<nat>): seq<Arg> {
    if order == [] then []
    else
      var o := conns(order[0]).Resolution();
      (if o.Value? then o.args else []) + Values(conns, order[1..])
  }

  lemma {:induction false} ValuesSnoc(conns: Conns, done: seq<nat>, id: nat)
    requires conns(id).Resolution().Value?
    ensures Values(conns, done + [id]) == Values(conns, done) + conns(id).Resolution().args
  {
    if done == [] {
      assert done + [id] == [id];
    } else {
      assert (done + [id])[1..] == done[1..] + [id];
      ValuesSnoc(conns, done[1..], id);
    }
  }

  lemma Snoc(conns: Conns, log: seq<Async.Event>, e: Async.Event)
    ensures Boxes(conns, log + [e]) == Store(conns, Boxes(conns, log), Async.Last(log), e)
    ensures History(conns, log + [e]) == History(conns, log) + Means(conns, Async.Last(log), e)
  {
    assert (log + [e])[..|log|] == log;
  }

  /** Everything before the current position is resolved and in its box. */
  ghost predicate Gathered(conns: Conns, done: seq<nat>, boxes: map<nat, seq<Arg>>) {
    forall i | 0 <= i < |done| ::
      var o := conns(done[i]).Resolution();
      o.Value? && done[i] in boxes && boxes[done[i]] == o.args
  }

  lemma {:induction false} UnboxGathered(conns: Conns, done: seq<nat>, boxes: map<nat, seq<Arg>>)
    requires Gathered(conns, done, boxes)
    ensures Unbox(boxes, done) == Some(Values(conns, done))
  {
    if done != [] {
      UnboxGathered(conns, done[1..], boxes);
    }
  }

  lemma GatheredSnoc(conns: Conns, done: seq<nat>, boxes: map<nat, seq<Arg>>, id: nat)
    requires Gathered(conns, done, boxes) && conns(id).Resolution().Value?
    ensures Gathered(conns, done + [id], boxes[id := conns(id).Resolution().args])
  {
  }

  lemma {:induction false} PlaysOut(conns: Conns, order: seq<nat>, log: seq<Async.Event>)
    requires Gathered(conns, order, Boxes(conns, log)) && Async.Completed !in log
    ensures PlayFrom(conns, order, [], log) == Observed(History(conns, log), [Value(Values(conns, order))])
  {
    Snoc(conns, log, Async.Completed);
    UnboxGathered(conns, order, Boxes(conns, log));
    assert History(conns, log) + [] == History(conns, log);
  }

  /** The trace after the next element is done with: visited if it is ready, otherwise visited and
      detached, and resumed once it has values. */
  function After(conns: Conns, rest: seq<nat>, log: seq<Async.Event>): (log': seq<Async.Event>)
    requires rest != []
    ensures Async.Completed !in log ==> Async.Completed !in log'
  {
    var c := conns(rest[0]);
    var visited := log + [Async.Visited(rest[0], c.Ready?)];
    var stop := visited + [Async.Detached(rest[0], rest[1..])];
    if c.Ready? then visited else if c.outcome.Value? then stop + [Async.Resumed] else stop
  }

  /** What the trace so far says about an element that did not resolve with values: its start alone. */
  function Half(conns: Conns, id: nat): seq<Happening> {
    if conns(id).Resolution().Value? then Turn(conns, id) else Begins(conns, id)
  }

  lemma AfterStores(conns: Conns, rest: seq<nat>, log: seq<Async.Event>)
    requires rest != []
    ensures var c, log' := conns(rest[0]), After(conns, rest, log);
            && History(conns, log') == History(conns, log) + Half(conns, rest[0])
            && (c.Resolution().Value? ==> Boxes(conns, log') == Boxes(conns, log)[rest[0] := c.Resolution().args])
  {
    var id, c := rest[0], conns(rest[0]);
    var visited := log + [Async.Visited(id, c.Ready?)];
    Snoc(conns, log, Async.Visited(id, c.Ready?));
    if c.Ready? {
      assert Half(conns, id) == [Resolves(id, c.Resolution())];
    } else {
      var stop := visited + [Async.Detached(id, rest[1..])];
      assert History(conns, visited) == History(conns, log);
      Snoc(conns, visited, Async.Detached(id, rest[1..]));
      assert Async.Last(stop) == Some(Async.Detached(id, rest[1..]));
      Snoc(conns, stop, Async.Resumed);
      Joins(History(conns, log), [Starts(id)], [Resolves(id, c.Resolution())]);
    }
  }

  /** Whether a continuable is ready, resolves in place or resolves later makes no difference to how
      the connection goes on after it. */
  lemma AfterPlays(conns: Conns, order: seq<nat>, rest: seq<nat>, log: seq<Async.Event>)
    requires rest != [] && Async.Completed !in log
    ensures var log' := After(conns, rest, log);
            var o := conns(rest[0]).Resolution();
            PlayFrom(conns, order, rest, log) ==
              if o.Value? then PlayFrom(conns, order, rest[1..], log')
              else Observed(History(conns, log') + Ends(rest[0], o), if o.Empty? then [] else [o])
  {
    var v, id, c := Visitor(conns), rest[0], conns(rest[0]);
    var stop := log + [Async.Visited(id, false)] + [Async.Detached(id, rest[1..])];
    assert v.proceed(log, id) == c.Ready?;
    assert v.reenter(stop) == (c.Asynchronous? && c.inPlace && c.outcome.Value?);
    if c.Asynchronous? && !v.reenter(stop) {
      Async.WalkEndsRight(v, rest, log);
      assert Async.Walk(v, rest, log) == Async.Walked(stop, Some(rest[1..]));
      PausePlays(conns, order, Async.Walked(stop, Some(rest[1..])), id);
    }
  }

  lemma PausePlays(conns: Conns, order: seq<nat>, w: Async.Walked, id: nat)
    requires Async.EndsRight(w) && w.paused.Some? && w.log[|w.log| - 1].id == id
    requires Async.Completed !in w.log
    ensures var o := conns(id).Resolution();
            Play(conns, order, w) ==
              if o.Value? then PlayFrom(conns, order, w.paused.value, w.log + [Async.Resumed])
              else Observed(History(conns, w.log) + Ends(id, o), if o.Empty? then [] else [o])
  {
    assert History(conns, w.log) + [] == History(conns, w.log);
  }

  /** One element of the connection: the trace it leads to, and how the connection goes on. */
  lemma PlayOne(conns: Conns, order: seq<nat>, rest: seq<nat>, log: seq<Async.Event>) returns (log': seq<Async.Event>)
    requires rest != [] && Async.Completed !in log
    ensures Async.Completed !in log'
    ensures var o := conns(rest[0]).Resolution();
            if o.Value? then
              && History(conns, log') == History(conns, log) + Turn(conns, rest[0])
              && Boxes(conns, log') == Boxes(conns, log)[rest[0] := o.args]
              && PlayFrom(conns, order, rest, log) == PlayFrom(conns, order, rest[1..], log')
            else
              PlayFrom(conns, order, rest, log) ==
                Observed(History(conns, log) + Turn(conns, rest[0]), if o.Empty? then [] else [o])
  {
    log' := After(conns, rest, log);
    AfterStores(conns, rest, log);
    AfterPlays(conns, order, rest, log);
    var o := conns(rest[0]).Resolution();
    Joins(History(conns, log), Begins(conns, rest[0]), Ends(rest[0], o));
  }

  /** One step of the specification, after `before` has happened already. */
  lemma SequentiallyOne(conns: Conns, rest: seq<nat>, gathered: seq<Arg>, before: seq<Happening>)
    requires rest != []
    ensures var o := conns(rest[0]).Resolution();
            var s, now := Sequentially(conns, rest, gathered), before + Turn(conns, rest[0]);
            Observed(before + s.events, s.delivered) ==
              if o.Value? then
                Observed(now + Sequentially(conns, rest[1..], gathered + o.args).events,
                         Sequentially(conns, rest[1..], gathered + o.args).delivered)
              else
                Observed(now, if o.Empty? then [] else [o])
  {
    var o := conns(rest[0]).Resolution();
    if o.Value? {
      Joins(before, Turn(conns, rest[0]), Sequentially(conns, rest[1..], gathered + o.args).events);
    }
  }

  lemma Advance(done: seq<nat>, rest: seq<nat>)
    requires rest != []
    ensures done + rest == (done + [rest[0]]) + rest[1..]
  {
  }

  /** The connection from any point of its life on, the boxes of `done` being filled. */
  lemma {:induction false} PlaysOn(conns: Conns, order: seq<nat>, done: seq<nat>, rest: seq<nat>, log: seq<Async.Event>)
    requires order == done + rest
    requires Gathered(conns, done, Boxes(conns, log)) && Async.Completed !in log
    ensures var s := Sequentially(conns, rest, Values(conns, done));
            PlayFrom(conns, order, rest, log) == Observed(History(conns, log) + s.events, s.delivered)
    decreases |rest|
  {
    if rest == [] {
      assert order == done && History(conns, log) + [] == History(conns, log);
      PlaysOut(conns, done, log);
    } else {
      var log' := PlayOne(conns, order, rest, log);
      SequentiallyOne(conns, rest, Values(conns, done), History(conns, log));
      if conns(rest[0]).Resolution().Value? {
        Advance(done, rest);
        ValuesSnoc(conns, done, rest[0]);
        GatheredSnoc(conns, done, Boxes(conns, log), rest[0]);
        PlaysOn(conns, order, done + [rest[0]], rest[1..], log');
      }
    }
  }

  lemma WhenSeqIsSequential(conns: Conns, order: seq<nat>)
    ensures WhenSeq(conns, order) == Sequentially(conns, order, [])
  {
    assert [] + order == order;
    PlaysOn(conns, order, [], order, []);
    var s := Sequentially(conns, order, []);
    assert [] + s.events == s.events;
  }

  /** How many continuables get their turn: those up to the first that does not resolve with values. */
  function Stop(conns: Conns, order: seq<nat>): (k: nat)
    ensures k <= |order|
    ensures forall i | 0 <= i < k :: conns(order[i]).Resolution().Value?
    ensures k < |order| ==> !conns(order[k]).Resolution().Value?
  {
    if order == [] || !conns(order[0]).Resolution().Value? then 0
    else
      var k := Stop(conns, order[1..]);
      assert forall i | 0 < i < k + 1 :: order[i] == order[1..][i - 1];
      k + 1
  }

  function Turns(conns: Conns, order: seq<nat>): seq<Happening> {
    if order == [] then [] else Turn(conns, order[0]) + Turns(conns, order[1..])
  }

  /** The specification in closed form. */
  lemma {:induction false} SequentiallyStops(conns: Conns, order: seq<nat>, gathered: seq<Arg>)
    ensures var k, s := Stop(conns, order), Sequentially(conns, order, gathered);
            if k == |order| then
              s.events == Turns(conns, order) && s.delivered == [Value(gathered + Values(conns, order))]
            else
              && s.events == Turns(conns, order[..k + 1])
              && s.delivered == Chain.Deliveries(conns(order[k]).Resolution())
    decreases |order|
  {
    if order == [] {
      assert gathered + [] == gathered;
    } else {
      var o := conns(order[0]).Resolution();
      if o.Value? {
        var k := Stop(conns, order[1..]);
        SequentiallyStops(conns, order[1..], gathered + o.args);
        Joins(gathered, o.args, Values(conns, order[1..]));
        if k < |order[1..]| {
          assert order[..k + 2][1..] == order[1..][..k + 1];
        }
      } else {
        assert order[..1][1..] == [];
        assert Turn(conns, order[0]) + [] == Turn(conns, order[0]);
      }
    }
  }

  /** The continuable that event `a` starts is the next one in the pack after those resolved so far. */
  predicate InTurn(order: seq<nat>, events: seq<Happening>, a: nat)
    requires a < |events|
  {
    var done := ResolvedIn(events[..a]);
    |done| < |order| && done == order[..|done|] && events[a].id == order[|done|]
  }

  lemma {:induction false} TurnsAlternate(conns: Conns, order: seq<nat>, a: nat)
    requires forall i | 0 <= i < |order| - 1 :: conns(order[i]).Resolution().Value?
    requires a < |Turns(conns, order)| && Turns(conns, order)[a].Starts?
    ensures InTurn(order, Turns(conns, order), a)
    decreases |order|
  {
    var first, rest := Turn(conns, order[0]), Turns(conns, order[1..]);
    if a < |first| {
      assert a == 0 && (first + rest)[..0] == [];
    } else {
      assert order[1..] != [];
      assert conns(order[0]).Resolution().Value?;
      assert forall i | 0 <= i < |order[1..]| - 1 :: order[1..][i] == order[i + 1];
      TurnsAlternate(conns, order[1..], a - |first|);
      OneTurnEarlier(conns, order, rest, a - |first|);
    }
  }

  lemma OneTurnEarlier(conns: Conns, order: seq<nat>, rest: seq<Happening>, a: nat)
    requires order != [] && conns(order[0]).Resolution().Value? && a < |rest| && InTurn(order[1..], rest, a)
    ensures InTurn(order, Turn(conns, order[0]) + rest, |Turn(conns, order[0])| + a)
  {
    var first := Turn(conns, order[0]);
    var done := ResolvedIn(rest[..a]);
    assert (first + rest)[..|first| + a] == first + rest[..a];
    ResolvedAfterTurn(conns, order[0], rest[..a]);
    assert order[..|done| + 1] == [order[0]] + order[1..][..|done|];
  }

  lemma ResolvedAfterTurn(conns: Conns, id: nat, events: seq<Happening>)
    requires conns(id).Resolution().Value?
    ensures ResolvedIn(Turn(conns, id) + events) == [id] + ResolvedIn(events)
  {
    var end := Resolves(id, conns(id).Resolution());
    assert ([end] + events)[1..] == events;
    if !conns(id).Ready? {
      assert Turn(conns, id) + events == [Starts(id)] + ([end] + events);
      assert ([Starts(id)] + ([end] + events))[1..] == [end] + events;
    }
  }

  lemma SequentiallyInTurn(conns: Conns, order: seq<nat>, a: nat)
    requires var events := Sequentially(conns, order, []).events; a < |events| && events[a].Starts?
    ensures InTurn(order, Sequentially(conns, order, []).events, a)
  {
    SequentiallyStops(conns, order, []);
    var k := Stop(conns, order);
    var turns := if k == |order| then order else order[..k + 1];
    TurnsAlternate(conns, turns, a);
    var n := |ResolvedIn(Turns(conns, turns)[..a])|;
    assert turns[..n] == order[..n];
  }

  /** when_seq, for every mix of ready and asynchronous continuables: they get their turns one after
      another in pack order, up to the first that does not resolve with values. Whenever one is started
      exactly the ones before it in the pack have resolved. If all have values the callback gets all of
      them in pack order; otherwise it gets the first exception, or nothing if the one whose turn it is
      never resolves. */
  lemma WhenSeqGoesOneByOne(conns: Conns, order: seq<nat>)
    ensures var k, w := Stop(conns, order), WhenSeq(conns, order);
            && (if k == |order| then
                  w.events == Turns(conns, order) && w.delivered == [Value(Values(conns, order))]
                else
                  && w.events == Turns(conns, order[..k + 1])
                  && w.delivered == Chain.Deliveries(conns(order[k]).Resolution()))
            && forall a | 0 <= a < |w.events| && w.events[a].Starts? :: InTurn(order, w.events, a)
  {
    WhenSeqIsSequential(conns, order);
    SequentiallyStops(conns, order, []);
    assert [] + Values(conns, order) == Values(conns, order);
    var events := WhenSeq(conns, order).events;
    forall a | 0 <= a < |events| && events[a].Starts?
      ensures InTurn(order, events, a)
    {
      SequentiallyInTurn(conns, order, a);
    }
  }

  // ---------------------------------------------------------------------------------------
  // when_seq on the traversal frame
  // ---------------------------------------------------------------------------------------

  /** Starting the connection on a nested pack: what is observed from here on is settled by the
      continuables in the pack, in the order of its elements. */
  method ConnectSequentially(conns: Conns, args: seq<Async.Pack>) returns (frame: Async.Frame)
    ensures fresh(frame) && frame.Settled() && frame.visitor == Visitor(conns)
    ensures Async.EndsRight(frame.goal)
    ensures var order := Async.ElementsOf(args);
            Play(conns, order, frame.goal) == Sequentially(conns, order, [])
  {
    frame := Async.ApplyPackTransformAsync(Visitor(conns), args);
    Async.WalkEndsRight(Visitor(conns), Async.ElementsOf(args), []);
    WhenSeqIsSequential(conns, Async.ElementsOf(args));
  }

  /** The handler of a continuable that was detached and has now resolved with values: resuming the
      frame changes nothing about what will be observed in the end. */
  method ResumeWithValues(conns: Conns, order: seq<nat>, frame: Async.Frame)
    requires frame.Settled() && frame.visitor == Visitor(conns) && frame.pending.Some?
    requires Async.EndsRight(frame.goal)
    requires conns(frame.log[|frame.log| - 1].id).Resolution().Value?
    modifies frame
    ensures frame.Settled() && Async.EndsRight(frame.goal)
    ensures Play(conns, order, frame.goal) == old(Play(conns, order, frame.goal))
  {
    Async.WalkEndsRight(frame.visitor, frame.goal.paused.value, frame.log + [Async.Resumed]);
    frame.ResumePending();
  }

  // ---------------------------------------------------------------------------------------
  // The operator >>
  // ---------------------------------------------------------------------------------------

  /** `left >> right`: a result handler of the left continuable holds the right one, whose own result
      handler appends its values to the captured ones of the left. */
  function SequentialConnect(left: Chain.Cont, right: Chain.Cont): Chain.Cont {
    var append := Chain.Handler(1, Chain.Return((env: Chain.Captures, o: Outcome) =>
      if env != [] && env[|env| - 1].Value? && o.Value? then Chain.TupleLike(env[|env| - 1].args + o.args)
      else Chain.Stop));
    var second := Chain.Chained(Chain.Closure([], right), Chain.OnResult, append, Chain.ThisThread);
    Chain.Chained(left, Chain.OnResult, Chain.Handler(0, Chain.Continue(second)), Chain.ThisThread)
  }

  function Continuation(conns: Conns, id: nat): Chain.Cont {
    match conns(id)
    case Ready(args) => Chain.Ready(_ => Value(args))
    case Asynchronous(o, _) => Chain.Source(id, _ => o)
  }

  /** `c0 >> c1 >> ... >> cn`. */
  function Shifted(conns: Conns, order: seq<nat>): Chain.Cont
    requires order != []
  {
    if |order| == 1 then Continuation(conns, order[0])
    else SequentialConnect(Shifted(conns, order[..|order| - 1]), Continuation(conns, order[|order| - 1]))
  }

  /** The continuables that a chain invoked. */
  function Invoked(trace: seq<Chain.Event>): seq<nat> {
    if trace == [] then []
    else (if trace[0].Started? then [trace[0].id] else []) + Invoked(trace[1..])
  }

  lemma {:induction false} InvokedSplit(a: seq<Chain.Event>, b: seq<Chain.Event>)
    ensures Invoked(a + b) == Invoked(a) + Invoked(b)
  {
    if a == [] {
      assert a + b == b;
    } else {
      assert (a + b)[1..] == a[1..] + b;
      InvokedSplit(a[1..], b);
    }
  }

  /** The result handlers contribute no starts of their own. */
  lemma InvokedAround(a: seq<Chain.Event>, h: Chain.Event, b: seq<Chain.Event>)
    requires h.Handled?
    ensures Invoked(a + [h] + b) == Invoked(a) + Invoked(b)
  {
    var one := [h];
    assert |one[1..]| == 0;
    assert |Invoked(one)| == 0;
    InvokedSplit(a, one);
    assert Invoked(a + one) == Invoked(a);
    InvokedSplit(a + one, b);
  }

  lemma {:induction false} ConnectMeaning(left: Chain.Cont, right: Chain.Cont)
    ensures var l, r := Chain.Fold(left, []), Chain.Fold(right, []);
            var m := Chain.Fold(SequentialConnect(left, right), []);
            if !l.outcome.Value? then
              m == l
            else
              && Invoked(m.trace) == Invoked(l.trace) + Invoked(r.trace)
              && m.outcome == if r.outcome.Value? then Value(l.outcome.args + r.outcome.args) else r.outcome
  {
    var l, r := Chain.Fold(left, []), Chain.Fold(right, []);
    if l.outcome.Value? {
      var connected := SequentialConnect(left, right);
      var second := connected.handler.body.cont;
      var env := [] + [l.outcome];
      assert Chain.Fold(second.inner, env) == r;
      var s := Chain.Fold(second, env);
      if r.outcome.Value? {
        assert Chain.Handles(Chain.OnResult, r.outcome);
        var b := Chain.FoldBody(second.handler.body, env, r.outcome);
        assert b == Chain.Meaning([], Value(l.outcome.args + r.outcome.args));
        assert s == Chain.Meaning(r.trace + [Chain.Handled(1, r.outcome)] + [], b.outcome);
        InvokedAround(r.trace, Chain.Handled(1, r.outcome), []);
      }
      assert Invoked(s.trace) == Invoked(r.trace);
      InvokedAround(l.trace, Chain.Handled(0, l.outcome), s.trace);
    }
  }

  lemma {:induction false} StartsSplit(a: seq<Happening>, b: seq<Happening>)
    ensures StartsIn(a + b) == StartsIn(a) + StartsIn(b)
  {
    if a == [] {
      assert a + b == b;
    } else {
      assert (a + b)[1..] == a[1..] + b;
      StartsSplit(a[1..], b);
    }
  }

  lemma StartsOfTurn(conns: Conns, id: nat)
    ensures StartsIn(Turn(conns, id)) == if conns(id).Ready? then [] else [id]
  {
    var end := Ends(id, conns(id).Resolution());
    assert end != [] ==> end[1..] == [];
    assert StartsIn(end) == [];
    if !conns(id).Ready? {
      assert Turn(conns, id)[1..] == end;
    }
  }

  /** The specification at its right end: the last continuable is started if all others had values. */
  lemma {:induction false} SequentiallySnoc(conns: Conns, order: seq<nat>, id: nat, gathered: seq<Arg>)
    ensures var s, t := Sequentially(conns, order, gathered), Sequentially(conns, order + [id], gathered);
            var o := conns(id).Resolution();
            if s.delivered != [] && s.delivered[0].Value? then
              && t.events == s.events + Turn(conns, id)
              && t.delivered == if o.Value? then [Value(s.delivered[0].args + o.args)] else Chain.Deliveries(o)
            else
              t == s
    decreases |order|
  {
    if order == [] {
      assert order + [id] == [id];
      assert [id][1..] == [];
    } else {
      var c := conns(order[0]);
      assert (order + [id])[0] == order[0] && (order + [id])[1..] == order[1..] + [id];
      if c.Resolution().Value? {
        SequentiallySnoc(conns, order[1..], id, gathered + c.Resolution().args);
        var s' := Sequentially(conns, order[1..], gathered + c.Resolution().args);
        Joins(Turn(conns, order[0]), s'.events, Turn(conns, id));
      }
    }
  }

  lemma OneContinuable(conns: Conns, id: nat)
    ensures var m, s := Chain.Fold(Continuation(conns, id), []), Sequentially(conns, [id], []);
            && m.outcome == conns(id).Resolution()
            && Invoked(m.trace) == (if conns(id).Ready? then [] else [id])
            && StartsIn(s.events) == Invoked(m.trace) && s.delivered == Chain.Deliveries(m.outcome)
  {
    var o := conns(id).Resolution();
    StartsOfTurn(conns, id);
    assert [id][1..] == [] && Turn(conns, id) + [] == Turn(conns, id);
    if o.Value? {
      assert [] + o.args == o.args;
    }
  }

  /** A fold of >> over any list: the same starts in the same order, the same values and the same
      first exception as the specification. */
  lemma {:induction false} ShiftIsSequential(conns: Conns, order: seq<nat>)
    requires order != []
    ensures var m, s := Chain.Fold(Shifted(conns, order), []), Sequentially(conns, order, []);
            Invoked(m.trace) == StartsIn(s.events) && Chain.Deliveries(m.outcome) == s.delivered
    decreases |order|
  {
    if |order| == 1 {
      OneContinuable(conns, order[0]);
      assert order == [order[0]];
    } else {
      var init, id := order[..|order| - 1], order[|order| - 1];
      assert order == init + [id];
      ShiftIsSequential(conns, init);
      SequentiallySnoc(conns, init, id, []);
      ConnectMeaning(Shifted(conns, init), Continuation(conns, id));
      OneContinuable(conns, id);
      StartsSplit(Sequentially(conns, init, []).events, Turn(conns, id));
      StartsOfTurn(conns, id);
    }
  }

  /** when_seq over a list and the fold of >> over the same list, both executed by their machines,
      start the same continuables in the same order and call the callback the same way. */
  lemma WhenSeqEqualsShift(conns: Conns, order: seq<nat>) returns (n: nat)
    requires order != []
    ensures var w := WhenSeq(conns, order);
            forall k :: n <= k ==>
              var s := Chain.Steps(Chain.Start(Shifted(conns, order), []), k);
              s.control.Over? && Invoked(s.trace) == StartsIn(w.events) && s.delivered == w.delivered
  {
    WhenSeqIsSequential(conns, order);
    ShiftIsSequential(conns, order);
    n := Chain.ChainDeliversFold(Shifted(conns, order), []);
  }
}
