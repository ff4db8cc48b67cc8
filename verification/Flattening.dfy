/** Expressions of `&&` and `||` are compiled to flat n-ary connections. Whatever happens at the
    leaves, and in whatever order, the flat connection calls its callback at the same event and with
    the same payload as the nested binary one, and never twice. */
module Flattening {
  import opened Results
  import Protocol = AllConnection

  // ---------------------------------------------------------------------------------------
  // Building connections
  // ---------------------------------------------------------------------------------------

  /** A materialized continuable: a leaf, or a connection of materialized ones. */
  datatype Conn = Leaf(id: nat) | Node(strategy: Strategy, kids: seq<Conn>)

  datatype Strategy = All | Any

  /** What the user writes; `Finish` is an explicit materialization. */
  datatype Expr =
    | Atom(id: nat)
    | And(left: Expr, right: Expr)
    | Or(left: Expr, right: Expr)
    | Finish(expr: Expr)

  /** A continuable with its annotation: concrete, or a strategy that is still being applied and
      holds the tuple of connected continuables. */
  datatype Annotated = Concrete(conn: Conn) | Pending(strategy: Strategy, data: seq<Conn>)

  /** `finish`: materializes a pending strategy. */
  function Materialize(a: Annotated): Conn {
    match a case Concrete(c) => c case Pending(s, data) => Node(s, data)
  }

  /** `normalize`: a concrete continuable and one under another strategy become a single element,
      one under the same strategy contributes its elements. */
  function Normalize(strategy: Strategy, a: Annotated): seq<Conn> {
    match a
    case Concrete(c) => [c]
    case Pending(s, data) => if s == strategy then data else [Materialize(a)]
  }

  /** `connect`. */
  function Connect(strategy: Strategy, left: Annotated, right: Annotated): Annotated {
    Pending(strategy, Normalize(strategy, left) + Normalize(strategy, right))
  }

  function Compile(e: Expr): Annotated {
    match e
    case Atom(id) => Concrete(Leaf(id))
    case And(l, r) => Connect(All, Compile(l), Compile(r))
    case Or(l, r) => Connect(Any, Compile(l), Compile(r))
    case Finish(f) => Concrete(Materialize(Compile(f)))
  }

  /** The expression as it is written: one binary connection per operator. */
  function Nested(e: Expr): Conn {
    match e
    case Atom(id) => Leaf(id)
    case And(l, r) => Node(All, [Nested(l), Nested(r)])
    case Or(l, r) => Node(Any, [Nested(l), Nested(r)])
    case Finish(f) => Nested(f)
  }

  // ---------------------------------------------------------------------------------------
  // Running a connection
  // ---------------------------------------------------------------------------------------

  /** A moment at which leaves resolve. At the first one, the dispatch, any number of them may, each
      while it is being started; after that it is typically one leaf at a time. */
  datatype Event = Event(payloads: map<nat, Payload>)

  datatype Payload = Values(args: seq<Arg>) | Error(error: Error)

  /** The shared state of an all connection at work: a result per kid, the number of missing ones, and
      whether the callback was called. */
  datatype Submitter = Submitter(results: seq<Option<seq<Arg>>>, left: nat, done: bool)

  /** A connection at work. A leaf is a promise, which can be resolved once; every node calls its
      callback once at most. */
  datatype Net =
    | Source(id: nat, resolved: bool)
    | AllNet(kids: seq<Net>, submitter: Submitter)
    | AnyNet(alternatives: seq<Net>, called: bool)

  function Start(c: Conn): Net {
    match c
    case Leaf(id) => Source(id, false)
    case Node(s, kids) =>
      var nets := seq(|kids|, i requires 0 <= i < |kids| => Start(kids[i]));
      if s.All? then AllNet(nets, Submitter(seq(|kids|, _ => None), |kids|, false)) else AnyNet(nets, false)
  }

  /** What a step leads to, and what the callback was called with, if it was. */
  datatype Stepped<T> = Stepped(state: T, call: Option<Payload>)

  /** An event reaches the leaves; a node then sees the calls of its kids from left to right, which is
      also the order of a dispatch. */
  function Step(net: Net, e: Event): Stepped<Net> {
    match net
    case Source(id, resolved) =>
      if id in e.payloads && !resolved then Stepped(Source(id, true), Some(e.payloads[id])) else Stepped(net, None)
    case AllNet(kids, submitter) =>
      var steps := seq(|kids|, i requires 0 <= i < |kids| => Step(kids[i], e));
      var after := AllAfter(submitter, Calls(steps), |steps|);
      Stepped(AllNet(States(steps), after.state), after.call)
    case AnyNet(kids, called) =>
      var steps := seq(|kids|, i requires 0 <= i < |kids| => Step(kids[i], e));
      var after := AnyAfter(called, Calls(steps), |steps|);
      Stepped(AnyNet(States(steps), after.state), after.call)
  }

  function States(steps: seq<Stepped<Net>>): seq<Net> {
    seq(|steps|, i requires 0 <= i < |steps| => steps[i].state)
  }

  function Calls(steps: seq<Stepped<Net>>): seq<Option<Payload>> {
    seq(|steps|, i requires 0 <= i < |steps| => steps[i].call)
  }

  /** The partial callback of kid `i` of an all connection. */
  function AllCallback(s: Submitter, i: nat, p: Payload): Stepped<Submitter> {
    match p
    case Values(args) =>
      var results := if i < |s.results| then s.results[i := Some(args)] else s.results;
      var left := if s.left == 0 then 0 else s.left - 1;
      if left == 0 && !s.done then Stepped(Submitter(results, left, true), Some(Values(Unboxed(results))))
      else Stepped(Submitter(results, left, s.done), None)
    case Error(_) =>
      Stepped(s.(done := true), if s.done then None else Some(p))
  }

  /** The callbacks of the first `n` kids that were called. */
  function AllAfter(s: Submitter, calls: seq<Option<Payload>>, n: nat): Stepped<Submitter>
    requires n <= |calls|
  {
    if n == 0 then Stepped(s, None)
    else
      var before := AllAfter(s, calls, n - 1);
      match calls[n - 1]
      case None => before
      case Some(p) =>
        var now := AllCallback(before.state, n - 1, p);
        Stepped(now.state, if before.call.Some? then before.call else now.call)
  }

  function AnyAfter(called: bool, calls: seq<Option<Payload>>, n: nat): Stepped<bool>
    requires n <= |calls|
  {
    if n == 0 then Stepped(called, None)
    else
      var before := AnyAfter(called, calls, n - 1);
      if calls[n - 1].None? || before.state then before else Stepped(true, calls[n - 1])
  }

  function Unboxed(results: seq<Option<seq<Arg>>>): seq<Arg> { Protocol.Unboxed(results) }

  /** What the callback of a connection sees: one entry per event. */
  function Observed(net: Net, events: seq<Event>): (r: seq<Option<Payload>>)
    ensures |r| == |events|
    decreases |events|
  {
    if events == [] then []
    else
      var s := Step(net, events[0]);
      [s.call] + Observed(s.state, events[1..])
  }

  // ---------------------------------------------------------------------------------------
  // What a connection means
  // ---------------------------------------------------------------------------------------

  /** A call of the callback: at which event, and with what. */
  datatype Fired = Fired(at: nat, payload: Payload)

  /** The first event of a leaf. */
  function First(id: nat, events: seq<Event>): Option<Fired> {
    if events == [] then None
    else
      var n := |events| - 1;
      match First(id, events[..n])
      case Some(f) => Some(f)
      case None => if id in events[n].payloads then Some(Fired(n, events[n].payloads[id])) else None
  }

  /** Both: the earlier error, or the later time and the values of both. */
  function Both(x: Option<Fired>, y: Option<Fired>): Option<Fired> {
    if IsError(x) && IsError(y) then (if x.value.at <= y.value.at then x else y)
    else if IsError(x) then x
    else if IsError(y) then y
    else if x.None? || y.None? then None
    else
      Some(Fired(if x.value.at <= y.value.at then y.value.at else x.value.at,
                 Values(x.value.payload.args + y.value.payload.args)))
  }

  predicate IsError(x: Option<Fired>) { x.Some? && x.value.payload.Error? }

  /** Either: the earlier one. */
  function Either(x: Option<Fired>, y: Option<Fired>): Option<Fired> {
    if x.None? then y
    else if y.None? then x
    else if x.value.at <= y.value.at then x else y
  }

  function Every(ds: seq<Option<Fired>>): Option<Fired> {
    if ds == [] then Some(Fired(0, Values([]))) else Both(ds[0], Every(ds[1..]))
  }

  function Earliest(ds: seq<Option<Fired>>): Option<Fired> {
    if ds == [] then None else Either(ds[0], Earliest(ds[1..]))
  }

  function Meaning(c: Conn, events: seq<Event>): Option<Fired> {
    match c
    case Leaf(id) => First(id, events)
    case Node(s, kids) =>
      var ds := Meanings(kids, events);
      if s.All? then Every(ds) else Earliest(ds)
  }

  function Meanings(kids: seq<Conn>, events: seq<Event>): seq<Option<Fired>> {
    seq(|kids|, i requires 0 <= i < |kids| => Meaning(kids[i], events))
  }

  // ---------------------------------------------------------------------------------------
  // A running connection calls its callback exactly as it means
  // ---------------------------------------------------------------------------------------

  /** The connections that the operators build never have a node without kids. */
  ghost predicate Proper(c: Conn) {
    c.Node? ==> c.kids != [] && forall i | 0 <= i < |c.kids| :: Proper(c.kids[i])
  }

  /** From one event, at time `now`, to the next: what was fired stays, what is new is fired now. */
  ghost predicate Grows(d: Option<Fired>, d': Option<Fired>, now: nat) {
    && (d.Some? ==> d' == d && d.value.at < now)
    && (d.None? && d'.Some? ==> d'.value.at == now)
  }

  ghost predicate AllGrow(ds: seq<Option<Fired>>, ds': seq<Option<Fired>>, now: nat) {
    |ds| == |ds'| && forall i | 0 <= i < |ds| :: Grows(ds[i], ds'[i], now)
  }

  /** The call that an event causes. */
  function New(d: Option<Fired>, d': Option<Fired>): Option<Payload> {
    if d.None? && d'.Some? then Some(d'.value.payload) else None
  }

  lemma BothUnit(d: Option<Fired>)
    ensures Both(d, Some(Fired(0, Values([])))) == d
    ensures Both(Some(Fired(0, Values([]))), d) == d
  {
    if d.Some? && d.value.payload.Values? {
      assert d.value.payload.args + [] == d.value.payload.args == [] + d.value.payload.args;
    }
  }

  lemma {:induction false} EveryGrows(ds: seq<Option<Fired>>, ds': seq<Option<Fired>>, now: nat)
    requires ds != [] && AllGrow(ds, ds', now)
    ensures Grows(Every(ds), Every(ds'), now)
  {
    if |ds| == 1 {
      BothUnit(ds[0]);
      BothUnit(ds'[0]);
    } else {
      EveryGrows(ds[1..], ds'[1..], now);
    }
  }

  lemma {:induction false} EarliestGrows(ds: seq<Option<Fired>>, ds': seq<Option<Fired>>, now: nat)
    requires AllGrow(ds, ds', now)
    ensures Grows(Earliest(ds), Earliest(ds'), now)
  {
    if ds != [] {
      EarliestGrows(ds[1..], ds'[1..], now);
    }
  }

  lemma {:induction false} MeaningGrows(c: Conn, events: seq<Event>, e: Event)
    requires Proper(c)
    ensures Grows(Meaning(c, events), Meaning(c, events + [e]), |events|)
    decreases c
  {
    match c
    case Leaf(id) =>
      assert (events + [e])[..|events|] == events;
      FirstIsPast(id, events);
    case Node(s, kids) =>
      MeaningsGrow(kids, events, e);
      if s.All? {
        EveryGrows(Meanings(kids, events), Meanings(kids, events + [e]), |events|);
      } else {
        EarliestGrows(Meanings(kids, events), Meanings(kids, events + [e]), |events|);
      }
  }

  lemma {:induction false} MeaningsGrow(kids: seq<Conn>, events: seq<Event>, e: Event)
    requires forall i | 0 <= i < |kids| :: Proper(kids[i])
    ensures AllGrow(Meanings(kids, events), Meanings(kids, events + [e]), |events|)
    decreases kids
  {
    forall i | 0 <= i < |kids|
      ensures Grows(Meaning(kids[i], events), Meaning(kids[i], events + [e]), |events|)
    {
      MeaningGrows(kids[i], events, e);
    }
  }

  lemma {:induction false} FirstIsPast(id: nat, events: seq<Event>)
    ensures First(id, events).Some? ==> First(id, events).value.at < |events|
  {
    if events != [] {
      FirstIsPast(id, events[..|events| - 1]);
    }
  }

  // The shared state of an all connection, as its kids' meanings determine it.

  function ResultOf(d: Option<Fired>): Option<seq<Arg>> {
    if d.Some? && d.value.payload.Values? then Some(d.value.payload.args) else None
  }

  function ResultsOf(ds: seq<Option<Fired>>): seq<Option<seq<Arg>>> {
    seq(|ds|, i requires 0 <= i < |ds| => ResultOf(ds[i]))
  }

  function Missing(ds: seq<Option<Fired>>): nat {
    if ds == [] then 0 else (if ResultOf(ds[0]).None? then 1 else 0) + Missing(ds[1..])
  }

  function SubmitterOf(ds: seq<Option<Fired>>): Submitter {
    Submitter(ResultsOf(ds), Missing(ds), Every(ds).Some?)
  }

  /** The state of a connection after some events. */
  function NetOf(c: Conn, events: seq<Event>): Net {
    match c
    case Leaf(id) => Source(id, First(id, events).Some?)
    case Node(s, kids) =>
      var nets := seq(|kids|, i requires 0 <= i < |kids| => NetOf(kids[i], events));
      var ds := Meanings(kids, events);
      if s.All? then AllNet(nets, SubmitterOf(ds)) else AnyNet(nets, Earliest(ds).Some?)
  }

  lemma {:induction false} EveryWithoutErrors(ds: seq<Option<Fired>>)
    ensures !IsError(Every(ds)) ==> forall i | 0 <= i < |ds| :: !IsError(ds[i])
    ensures (forall i | 0 <= i < |ds| :: !IsError(ds[i])) ==>
              if Missing(ds) > 0 then Every(ds).None?
              else Every(ds).Some? && Every(ds).value.payload == Values(Unboxed(ResultsOf(ds)))
  {
    if ds != [] {
      EveryWithoutErrors(ds[1..]);
      assert ResultsOf(ds)[1..] == ResultsOf(ds[1..]);
      assert (forall i | 0 <= i < |ds| :: !IsError(ds[i])) ==> forall i | 0 <= i < |ds[1..]| :: !IsError(ds[1..][i]);
    }
  }

  /** Everything was fired by `now`, and what comes after kid `k` strictly before. */
  ghost predicate Past(ds: seq<Option<Fired>>, k: nat, now: nat) {
    forall i | 0 <= i < |ds| && ds[i].Some? :: ds[i].value.at <= now && (k < i ==> ds[i].value.at < now)
  }

  lemma {:induction false} EveryIsPast(ds: seq<Option<Fired>>, now: nat)
    requires forall i | 0 <= i < |ds| && ds[i].Some? :: ds[i].value.at < now
    ensures Every(ds).Some? ==> Every(ds).value.at <= now && (IsError(Every(ds)) ==> Every(ds).value.at < now)
  {
    if ds != [] {
      EveryIsPast(ds[1..], now);
    }
  }

  lemma {:induction false} EveryNeedsAll(ds: seq<Option<Fired>>, k: nat)
    requires k < |ds| && ds[k].None?
    ensures Every(ds).Some? ==> IsError(Every(ds))
  {
    if k > 0 {
      EveryNeedsAll(ds[1..], k - 1);
    }
  }

  /** One more kid is fired: an error decides at once, values only if they were the last missing. */
  lemma {:induction false} EveryUpdate(ds: seq<Option<Fired>>, k: nat, now: nat, p: Payload)
    requires k < |ds| && ds[k].None? && Past(ds, k, now)
    ensures var ds' := ds[k := Some(Fired(now, p))];
            if Every(ds).Some? then Every(ds') == Every(ds)
            else if p.Error? then Every(ds') == Some(Fired(now, p))
            else Every(ds').Some? ==> Every(ds').value.at == now
  {
    var ds' := ds[k := Some(Fired(now, p))];
    if k == 0 {
      assert ds'[1..] == ds[1..];
      EveryIsPast(ds[1..], now);
    } else {
      assert ds'[1..] == ds[1..][k - 1 := Some(Fired(now, p))];
      EveryUpdate(ds[1..], k - 1, now, p);
      EveryNeedsAll(ds[1..], k - 1);
    }
  }

  lemma {:induction false} MissingUpdate(ds: seq<Option<Fired>>, k: nat, d: Option<Fired>)
    requires k < |ds| && ds[k].None?
    ensures Missing(ds) > 0
    ensures Missing(ds[k := d]) == if ResultOf(d).Some? then Missing(ds) - 1 else Missing(ds)
    ensures ResultsOf(ds[k := d]) == ResultsOf(ds)[k := ResultOf(d)]
  {
    if k == 0 {
      assert ds[k := d][1..] == ds[1..];
    } else {
      assert ds[k := d][1..] == ds[1..][k - 1 := d];
      MissingUpdate(ds[1..], k - 1, d);
    }
  }

  lemma {:induction false} EarliestUpdate(ds: seq<Option<Fired>>, k: nat, now: nat, p: Payload)
    requires k < |ds| && ds[k].None? && Past(ds, k, now)
    ensures var ds' := ds[k := Some(Fired(now, p))];
            Earliest(ds') == if Earliest(ds).Some? then Earliest(ds) else Some(Fired(now, p))
  {
    var ds' := ds[k := Some(Fired(now, p))];
    if k == 0 {
      assert ds'[1..] == ds[1..];
      EarliestIsPast(ds[1..], now);
    } else {
      assert ds'[1..] == ds[1..][k - 1 := Some(Fired(now, p))];
      EarliestUpdate(ds[1..], k - 1, now, p);
      EarliestAtMost(ds[1..], now);
    }
  }

  lemma {:induction false} EarliestIsPast(ds: seq<Option<Fired>>, now: nat)
    requires forall i | 0 <= i < |ds| && ds[i].Some? :: ds[i].value.at < now
    ensures Earliest(ds).Some? ==> Earliest(ds).value.at < now
  {
    if ds != [] {
      EarliestIsPast(ds[1..], now);
    }
  }

  lemma {:induction false} EarliestAtMost(ds: seq<Option<Fired>>, now: nat)
    requires forall i | 0 <= i < |ds| && ds[i].Some? :: ds[i].value.at <= now
    ensures Earliest(ds).Some? ==> Earliest(ds).value.at <= now
  {
    if ds != [] {
      EarliestAtMost(ds[1..], now);
    }
  }

  /** Kid `k` calls its partial callback. */
  lemma CallbackTracks(ds: seq<Option<Fired>>, k: nat, now: nat, p: Payload)
    requires k < |ds| && ds[k].None? && Past(ds, k, now)
    ensures var ds' := ds[k := Some(Fired(now, p))];
            AllCallback(SubmitterOf(ds), k, p) == Stepped(SubmitterOf(ds'), New(Every(ds), Every(ds')))
  {
    var d := Some(Fired(now, p));
    EveryUpdate(ds, k, now, p);
    MissingUpdate(ds, k, d);
    EveryWithoutErrors(ds);
    if Every(ds).None? {
      EveryWithoutErrors(ds[k := d]);
    }
    if p.Error? {
      assert ResultsOf(ds)[k := None] == ResultsOf(ds);
    }
  }

  /** The kids up to `n` have seen the event, the others have not. */
  function Mixed(ds: seq<Option<Fired>>, ds': seq<Option<Fired>>, n: nat): seq<Option<Fired>>
    requires n <= |ds| == |ds'|
  {
    ds'[..n] + ds[n..]
  }

  function News(ds: seq<Option<Fired>>, ds': seq<Option<Fired>>): seq<Option<Payload>>
    requires |ds| == |ds'|
  {
    seq(|ds|, i requires 0 <= i < |ds| => New(ds[i], ds'[i]))
  }

  lemma MixedStep(ds: seq<Option<Fired>>, ds': seq<Option<Fired>>, n: nat, now: nat)
    requires AllGrow(ds, ds', now) && 0 < n <= |ds|
    ensures Mixed(ds, ds', n) == Mixed(ds, ds', n - 1)[n - 1 := ds'[n - 1]]
    ensures Mixed(ds, ds', n - 1)[n - 1] == ds[n - 1]
    ensures Past(Mixed(ds, ds', n - 1), n - 1, now)
    ensures match News(ds, ds')[n - 1]
            case None => Mixed(ds, ds', n) == Mixed(ds, ds', n - 1)
            case Some(p) => ds[n - 1].None? && ds'[n - 1] == Some(Fired(now, p))
  {
    var m := Mixed(ds, ds', n - 1);
    assert forall i | 0 <= i < |m| :: m[i] == if i < n - 1 then ds'[i] else ds[i];
    assert forall i | 0 <= i < |m| :: Grows(ds[i], ds'[i], now);
    assert Grows(ds[n - 1], ds'[n - 1], now);
    if News(ds, ds')[n - 1].None? {
      assert ds[n - 1] == ds'[n - 1];
    }
  }

  lemma {:induction false} AllAfterTracks(ds: seq<Option<Fired>>, ds': seq<Option<Fired>>, now: nat, n: nat)
    requires AllGrow(ds, ds', now) && n <= |ds|
    ensures var m := Mixed(ds, ds', n);
            && AllAfter(SubmitterOf(ds), News(ds, ds'), n) == Stepped(SubmitterOf(m), New(Every(ds), Every(m)))
            && (Every(ds).Some? ==> Every(m) == Every(ds))
  {
    if n == 0 {
      assert Mixed(ds, ds', 0) == ds;
    } else {
      AllAfterTracks(ds, ds', now, n - 1);
      MixedStep(ds, ds', n, now);
      var m := Mixed(ds, ds', n - 1);
      if News(ds, ds')[n - 1].Some? {
        CallbackTracks(m, n - 1, now, ds'[n - 1].value.payload);
        EveryUpdate(m, n - 1, now, ds'[n - 1].value.payload);
      }
    }
  }

  lemma {:induction false} AnyAfterTracks(ds: seq<Option<Fired>>, ds': seq<Option<Fired>>, now: nat, n: nat)
    requires AllGrow(ds, ds', now) && n <= |ds|
    ensures var m := Mixed(ds, ds', n);
            && AnyAfter(Earliest(ds).Some?, News(ds, ds'), n)
               == Stepped(Earliest(m).Some?, New(Earliest(ds), Earliest(m)))
            && (Earliest(ds).Some? ==> Earliest(m) == Earliest(ds))
  {
    if n == 0 {
      assert Mixed(ds, ds', 0) == ds;
    } else {
      AnyAfterTracks(ds, ds', now, n - 1);
      MixedStep(ds, ds', n, now);
      if News(ds, ds')[n - 1].Some? {
        EarliestUpdate(Mixed(ds, ds', n - 1), n - 1, now, ds'[n - 1].value.payload);
      }
    }
  }

  /** A step of a connection leads to the state that the longer history determines, and calls the
      callback exactly if that history fires it and the shorter one does not. */
  lemma {:induction false} StepTracks(c: Conn, events: seq<Event>, e: Event)
    requires Proper(c)
    ensures Step(NetOf(c, events), e)
         == Stepped(NetOf(c, events + [e]), New(Meaning(c, events), Meaning(c, events + [e])))
    decreases c
  {
    match c
    case Leaf(id) =>
      assert (events + [e])[..|events|] == events;
    case Node(s, kids) =>
      var now, events' := |events|, events + [e];
      var ds, ds' := Meanings(kids, events), Meanings(kids, events');
      var nets := seq(|kids|, i requires 0 <= i < |kids| => NetOf(kids[i], events));
      var nets' := seq(|kids|, i requires 0 <= i < |kids| => NetOf(kids[i], events'));
      var steps := seq(|nets|, i requires 0 <= i < |nets| => Step(nets[i], e));
      forall i | 0 <= i < |kids|
        ensures steps[i] == Stepped(nets'[i], New(ds[i], ds'[i]))
      {
        StepTracks(kids[i], events, e);
      }
      assert States(steps) == nets' && Calls(steps) == News(ds, ds');
      MeaningsGrow(kids, events, e);
      assert Mixed(ds, ds', |ds|) == ds';
      if s.All? {
        AllAfterTracks(ds, ds', now, |ds|);
      } else {
        AnyAfterTracks(ds, ds', now, |ds|);
      }
  }

  lemma {:induction false} NothingYet(c: Conn)
    requires Proper(c)
    ensures Meaning(c, []).None? && NetOf(c, []) == Start(c)
  {
    if c.Node? {
      var ds := Meanings(c.kids, []);
      forall i | 0 <= i < |c.kids|
        ensures Meaning(c.kids[i], []).None? && NetOf(c.kids[i], []) == Start(c.kids[i])
      {
        NothingYet(c.kids[i]);
      }
      assert forall i | 0 <= i < |ds| :: ds[i].None?;
      NoneYet(ds);
      assert ResultsOf(ds) == seq(|c.kids|, _ => None);
    }
  }

  lemma {:induction false} NoneYet(ds: seq<Option<Fired>>)
    requires forall i | 0 <= i < |ds| :: ds[i].None?
    ensures Missing(ds) == |ds| && Earliest(ds).None?
    ensures ds != [] ==> Every(ds).None?
  {
    if ds != [] {
      NoneYet(ds[1..]);
      if |ds| == 1 {
        BothUnit(ds[0]);
      }
    }
  }

  lemma Prefixes(past: seq<Event>, events: seq<Event>, k: nat)
    requires k < |events|
    ensures (past + [events[0]]) + events[1..][..k] == past + events[..k + 1]
  {
  }

  lemma {:induction false} ObservedFrom(c: Conn, past: seq<Event>, events: seq<Event>, t: nat)
    requires Proper(c) && t < |events|
    ensures Observed(NetOf(c, past), events)[t]
         == New(Meaning(c, past + events[..t]), Meaning(c, past + events[..t + 1]))
    decreases |events|
  {
    StepTracks(c, past, events[0]);
    if t == 0 {
      assert past + events[..0] == past;
      assert past + events[..1] == past + [events[0]];
    } else {
      ObservedFrom(c, past + [events[0]], events[1..], t - 1);
      Prefixes(past, events, t - 1);
      Prefixes(past, events, t);
    }
  }

  /** What a connection means, seen by its callback: it is called at the one event that completes the
      meaning of the history, with that payload. */
  lemma {:induction false} ObservedIsMeaning(c: Conn, events: seq<Event>, t: nat)
    requires Proper(c) && t < |events|
    ensures Observed(Start(c), events)[t] == New(Meaning(c, events[..t]), Meaning(c, events[..t + 1]))
    ensures var before, after := Meaning(c, events[..t]), Meaning(c, events[..t + 1]);
            Observed(Start(c), events)[t] == if before.None? && after.Some? then Some(after.value.payload) else None
  {
    NothingYet(c);
    ObservedFrom(c, [], events, t);
    assert [] + events[..t] == events[..t] && [] + events[..t + 1] == events[..t + 1];
  }

  // ---------------------------------------------------------------------------------------
  // The submitter and the protocol of the all connection
  // ---------------------------------------------------------------------------------------

  function Abstract(s: Protocol.State): Submitter {
    Submitter(s.boxes, if s.left < 0 then 0 else s.left, s.flag)
  }

  /** What the final callback was called with by a step of the protocol. */
  function CallOf(s: Protocol.State, t: Protocol.State): Option<Payload> {
    if |t.delivered| <= |s.delivered| then None
    else
      match t.delivered[|t.delivered| - 1]
      case Value(args) => Some(Values(args))
      case Exception(e) => Some(Error(e))
      case Empty => None
  }

  /** A partial callback in one piece is what the steps of the protocol add up to when nothing comes in
      between, once `accept` has returned. */
  lemma CallbackIsProtocolRun(s: Protocol.State, i: nat, p: Payload)
    requires Protocol.Inv(s) && s.guard.Accepted? && i < |s.roles| && s.roles[i].Registered?
    ensures var t := match p
                     case Values(args) =>
                       Protocol.CompletedOne(Protocol.Step(s, Protocol.Assign(i, args)), Protocol.Decrement(i))
                     case Error(e) => Protocol.Step(s, Protocol.Fail(i, e));
            AllCallback(Abstract(s), i, p) == Stepped(Abstract(t), CallOf(s, t))
  {
    Protocol.CountPositive(s.roles, i);
    if p.Values? {
      Protocol.StepPreservesInv(s, Protocol.Assign(i, p.args));
    }
  }

  /** What a dispatch hands to the partial callbacks. */
  function CallsOf(inPlace: seq<Outcome>): seq<Option<Payload>> {
    seq(|inPlace|, i requires 0 <= i < |inPlace| =>
      match inPlace[i] case Value(args) => Some(Values(args)) case Exception(e) => Some(Error(e)) case Empty => None)
  }

  function ValueCount(os: seq<Outcome>): nat {
    if os == [] then 0 else ValueCount(os[..|os| - 1]) + if os[|os| - 1].Value? then 1 else 0
  }

  lemma {:induction false} ValueCountIsFull(os: seq<Outcome>)
    ensures ValueCount(os) <= |os|
    ensures ValueCount(os) == |os| <==> forall i | 0 <= i < |os| :: os[i].Value?
    ensures ValueCount(os) == |os| ==> Protocol.FirstError(os) == []
  {
    if os != [] {
      ValueCountIsFull(os[..|os| - 1]);
    }
  }

  /** The outcome a payload stands for. */
  function OutcomeOf(p: Option<Payload>): seq<Outcome> {
    match p case None => [] case Some(Values(args)) => [Value(args)] case Some(Error(e)) => [Exception(e)]
  }

  lemma {:induction false} BatchPrefix(inPlace: seq<Outcome>, k: nat)
    requires k <= |inPlace|
    ensures var n, os := |inPlace|, inPlace[..k];
            var r := AllAfter(Submitter(seq(n, _ => None), n, false), CallsOf(inPlace), k);
            && |r.state.results| == n
            && (forall j | 0 <= j < n ::
                  r.state.results[j] == if j < k && inPlace[j].Value? then Some(inPlace[j].args) else None)
            && r.state.left == n - ValueCount(os)
            && r.state.done == (Protocol.FirstError(os) != [] || (k > 0 && ValueCount(os) == n))
            && OutcomeOf(r.call) ==
                 (if k > 0 && ValueCount(os) == n then [Value(Unboxed(r.state.results))] else Protocol.FirstError(os))
  {
    if k > 0 {
      BatchPrefix(inPlace, k - 1);
      assert inPlace[..k][..k - 1] == inPlace[..k - 1];
      ValueCountIsFull(inPlace[..k - 1]);
      ValueCountIsFull(inPlace[..k]);
    }
  }

  /** The dispatch of a connection is its first event: the callback sees at once what the dispatch of the
      protocol, with its guard, calls it with by the time it ends. */
  lemma {:induction false} DispatchIsOneEvent(inPlace: seq<Outcome>)
    requires inPlace != []
    ensures var n := |inPlace|;
            var r := AllAfter(Submitter(seq(n, _ => None), n, false), CallsOf(inPlace), n);
            OutcomeOf(r.call) == Protocol.DispatchDelivers(inPlace, r.state.results)
  {
    BatchPrefix(inPlace, |inPlace|);
    assert inPlace[..|inPlace|] == inPlace;
    ValueCountIsFull(inPlace);
  }

  // ---------------------------------------------------------------------------------------
  // Flattening
  // ---------------------------------------------------------------------------------------

  lemma BothAssociative(x: Option<Fired>, y: Option<Fired>, z: Option<Fired>)
    ensures Both(Both(x, y), z) == Both(x, Both(y, z))
  {
    if x.Some? && y.Some? && z.Some? && x.value.payload.Values? && y.value.payload.Values? && z.value.payload.Values? {
      assert (x.value.payload.args + y.value.payload.args) + z.value.payload.args
          == x.value.payload.args + (y.value.payload.args + z.value.payload.args);
    }
  }

  lemma {:induction false} EverySplits(xs: seq<Option<Fired>>, ys: seq<Option<Fired>>)
    ensures Every(xs + ys) == Both(Every(xs), Every(ys))
  {
    if xs == [] {
      assert xs + ys == ys;
      BothUnit(Every(ys));
    } else {
      assert (xs + ys)[1..] == xs[1..] + ys;
      EverySplits(xs[1..], ys);
      BothAssociative(xs[0], Every(xs[1..]), Every(ys));
    }
  }

  lemma {:induction false} EarliestSplits(xs: seq<Option<Fired>>, ys: seq<Option<Fired>>)
    ensures Earliest(xs + ys) == Either(Earliest(xs), Earliest(ys))
  {
    if xs == [] {
      assert xs + ys == ys;
    } else {
      assert (xs + ys)[1..] == xs[1..] + ys;
      EarliestSplits(xs[1..], ys);
    }
  }

  /** The elements which `normalize` contributes mean the same as the continuable they come from. */
  lemma NormalizePreservesMeaning(strategy: Strategy, a: Annotated, events: seq<Event>)
    ensures Meaning(Node(strategy, Normalize(strategy, a)), events) == Meaning(Materialize(a), events)
  {
    if a.Concrete? || a.strategy != strategy {
      var ds := Meanings([Materialize(a)], events);
      assert ds == [Meaning(Materialize(a), events)] && ds[1..] == [];
      BothUnit(ds[0]);
      assert Every(ds) == ds[0] && Earliest(ds) == ds[0];
    }
  }

  lemma ConnectMeans(strategy: Strategy, left: Annotated, right: Annotated, events: seq<Event>)
    ensures Meaning(Materialize(Connect(strategy, left, right)), events)
         == Meaning(Node(strategy, [Materialize(left), Materialize(right)]), events)
  {
    var ls, rs := Normalize(strategy, left), Normalize(strategy, right);
    NormalizePreservesMeaning(strategy, left, events);
    NormalizePreservesMeaning(strategy, right, events);
    assert Meanings(ls + rs, events) == Meanings(ls, events) + Meanings(rs, events);
    EverySplits(Meanings(ls, events), Meanings(rs, events));
    EarliestSplits(Meanings(ls, events), Meanings(rs, events));
    var l, r := Meaning(Materialize(left), events), Meaning(Materialize(right), events);
    var ds := Meanings([Materialize(left), Materialize(right)], events);
    assert ds == [l] + [r];
    EverySplits([l], [r]);
    EarliestSplits([l], [r]);
    BothUnit(l);
    BothUnit(r);
  }

  lemma {:induction false} CompilePreservesMeaning(e: Expr, events: seq<Event>)
    ensures Meaning(Materialize(Compile(e)), events) == Meaning(Nested(e), events)
  {
    match e
    case Atom(_) =>
    case And(l, r) =>
      CompilePreservesMeaning(l, events);
      CompilePreservesMeaning(r, events);
      OperatorPreservesMeaning(All, l, r, events);
    case Or(l, r) =>
      CompilePreservesMeaning(l, events);
      CompilePreservesMeaning(r, events);
      OperatorPreservesMeaning(Any, l, r, events);
    case Finish(f) => CompilePreservesMeaning(f, events);
  }

  lemma OperatorPreservesMeaning(strategy: Strategy, l: Expr, r: Expr, events: seq<Event>)
    requires Meaning(Materialize(Compile(l)), events) == Meaning(Nested(l), events)
    requires Meaning(Materialize(Compile(r)), events) == Meaning(Nested(r), events)
    ensures Meaning(Materialize(Connect(strategy, Compile(l), Compile(r))), events)
         == Meaning(Node(strategy, [Nested(l), Nested(r)]), events)
  {
    ConnectMeans(strategy, Compile(l), Compile(r), events);
    assert Meanings([Materialize(Compile(l)), Materialize(Compile(r))], events)
        == Meanings([Nested(l), Nested(r)], events);
  }

  lemma {:induction false} BuiltIsProper(e: Expr)
    ensures Proper(Nested(e))
    ensures Proper(Materialize(Compile(e)))
    ensures Compile(e).Pending? ==> |Compile(e).data| >= 2
  {
    match e
    case Atom(_) =>
    case And(l, r) => BuiltIsProper(l); BuiltIsProper(r);
    case Or(l, r) => BuiltIsProper(l); BuiltIsProper(r);
    case Finish(f) => BuiltIsProper(f);
  }

  /** For every expression and every sequence of leaf resolutions: the callback of the flat connection
      and the callback of the nested one are called at the same events with the same payloads. */
  lemma {:induction false} FlatteningPreservesObservation(e: Expr, events: seq<Event>)
    ensures Observed(Start(Materialize(Compile(e))), events) == Observed(Start(Nested(e)), events)
  {
    BuiltIsProper(e);
    var flat, nested := Observed(Start(Materialize(Compile(e))), events), Observed(Start(Nested(e)), events);
    forall t | 0 <= t < |events|
      ensures flat[t] == nested[t]
    {
      ObservedIsMeaning(Materialize(Compile(e)), events, t);
      ObservedIsMeaning(Nested(e), events, t);
      CompilePreservesMeaning(e, events[..t]);
      CompilePreservesMeaning(e, events[..t + 1]);
    }
  }

  /** The callback of a connection is called at most once. */
  lemma {:induction false} CalledAtMostOnce(c: Conn, events: seq<Event>, t: nat, u: nat)
    requires Proper(c) && t < u < |events|
    ensures Observed(Start(c), events)[t].None? || Observed(Start(c), events)[u].None?
  {
    ObservedIsMeaning(c, events, t);
    ObservedIsMeaning(c, events, u);
    FiredStays(c, events, t + 1, u);
  }

  lemma {:induction false} FiredStays(c: Conn, events: seq<Event>, t: nat, u: nat)
    requires Proper(c) && t <= u <= |events|
    ensures Meaning(c, events[..t]).Some? ==> Meaning(c, events[..u]) == Meaning(c, events[..t])
    decreases u
  {
    if t < u {
      FiredStays(c, events, t, u - 1);
      MeaningGrows(c, events[..u - 1], events[u - 1]);
      assert events[..u - 1] + [events[u - 1]] == events[..u];
    }
  }

  // ---------------------------------------------------------------------------------------
  // What the operators mean
  // ---------------------------------------------------------------------------------------

  /** A leaf fires at the first event it is part of, with what it gets there. */
  lemma {:induction false} LeafFiresOnce(id: nat, events: seq<Event>, t: nat)
    requires t < |events| && id in events[t].payloads
    requires forall u | 0 <= u < t :: id !in events[u].payloads
    ensures Meaning(Nested(Atom(id)), events) == Some(Fired(t, events[t].payloads[id]))
    decreases |events|
  {
    var n := |events| - 1;
    if t < n {
      LeafFiresOnce(id, events[..n], t);
    } else {
      NeverFires(id, events[..n]);
    }
  }

  lemma {:induction false} NeverFires(id: nat, events: seq<Event>)
    requires forall u | 0 <= u < |events| :: id !in events[u].payloads
    ensures Meaning(Nested(Atom(id)), events).None?
  {
    if events != [] {
      NeverFires(id, events[..|events| - 1]);
    }
  }

  /** `x && y`: the first of both to fail fails it at once; otherwise it fires when both have, at the later
      event, with the values of the left one before those of the right one. */
  lemma AndMeans(l: Expr, r: Expr, events: seq<Event>)
    ensures var x, y, z := Meaning(Nested(l), events), Meaning(Nested(r), events), Meaning(Nested(And(l, r)), events);
            var failed := (d: Option<Fired>) => d.Some? && d.value.payload.Error?;
            if failed(x) && (failed(y) ==> x.value.at <= y.value.at) then z == x
            else if failed(y) then z == y
            else if x.None? || y.None? then z.None?
            else
              && z.Some? && z.value.payload == Values(x.value.payload.args + y.value.payload.args)
              && z.value.at == if x.value.at < y.value.at then y.value.at else x.value.at
  {
    var ds := Meanings([Nested(l), Nested(r)], events);
    assert ds == [ds[0]] + [ds[1]];
    EverySplits([ds[0]], [ds[1]]);
    BothUnit(ds[0]);
    BothUnit(ds[1]);
  }

  /** `x || y`: the first of both to fire, with whatever that is. */
  lemma OrMeans(l: Expr, r: Expr, events: seq<Event>)
    ensures var x, y, z := Meaning(Nested(l), events), Meaning(Nested(r), events), Meaning(Nested(Or(l, r)), events);
            if x.Some? && (y.Some? ==> x.value.at <= y.value.at) then z == x else z == y
  {
    var ds := Meanings([Nested(l), Nested(r)], events);
    assert ds == [ds[0]] + [ds[1]];
    EarliestSplits([ds[0]], [ds[1]]);
    assert Earliest([ds[0]]) == ds[0] && Earliest([ds[1]]) == ds[1];
  }

  /** What an operand contributes to a connection: one that is written with the same operator all of its
      own elements, any other one itself. */
  function Elements(e: Expr, same: bool): seq<Conn> {
    if same && Compile(e).Pending? then Compile(e).data else [Materialize(Compile(e))]
  }

  /** Operators of one kind are compiled to one flat connection, whatever the nesting, unless `finish` was
      called in between. */
  lemma OperatorsAreFlat(l: Expr, r: Expr)
    ensures Compile(And(l, r)) == Pending(All, Elements(l, l.And?) + Elements(r, r.And?))
    ensures Compile(Or(l, r)) == Pending(Any, Elements(l, l.Or?) + Elements(r, r.Or?))
    ensures Compile(Finish(l)).Concrete?
  {
  }

  /** Without `finish`, no connection is an element of one of the same kind. */
  predicate Alternates(c: Conn) {
    c.Node? ==>
      forall i | 0 <= i < |c.kids| :: Alternates(c.kids[i]) && (c.kids[i].Node? ==> c.kids[i].strategy != c.strategy)
  }

  predicate Unfinished(e: Expr) {
    match e
    case Atom(_) => true
    case And(l, r) => Unfinished(l) && Unfinished(r)
    case Or(l, r) => Unfinished(l) && Unfinished(r)
    case Finish(_) => false
  }

  lemma {:induction false} CompiledAlternates(e: Expr)
    requires Unfinished(e)
    ensures Alternates(Materialize(Compile(e)))
  {
    match e
    case Atom(_) =>
    case And(l, r) =>
      CompiledAlternates(l);
      CompiledAlternates(r);
      ConnectAlternates(All, Compile(l), Compile(r));
    case Or(l, r) =>
      CompiledAlternates(l);
      CompiledAlternates(r);
      ConnectAlternates(Any, Compile(l), Compile(r));
  }

  lemma ConnectAlternates(s: Strategy, x: Annotated, y: Annotated)
    requires Alternates(Materialize(x)) && Alternates(Materialize(y))
    requires (x.Concrete? ==> x.conn.Leaf?) && (y.Concrete? ==> y.conn.Leaf?)
    ensures Alternates(Materialize(Connect(s, x, y)))
  {
    var kids := Connect(s, x, y).data;
    forall i | 0 <= i < |kids| ensures Alternates(kids[i]) && (kids[i].Node? ==> kids[i].strategy != s) {
      assert kids[i] in Normalize(s, x) || kids[i] in Normalize(s, y);
    }
  }
}
