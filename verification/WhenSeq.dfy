/** `when_seq` from end to end: a pack is boxed, its boxes are filled one after another by the visitor of
    the resumable traversal, and the callback gets the pack unboxed. */
module WhenSeq {
  import opened Results
  import opened Remapping
  import opened Unboxing
  import opened WhenAll
  import Async = AsyncTraversal
  import Seq = Sequential

  /** The contents of the boxes. */
  function BoxContents(boxes: map<nat, seq<Arg>>): (nat, nat) -> int {
    (id: nat, j: nat) => if id in boxes && j < |boxes[id]| then boxes[id][j] else 0
  }

  /** The life of the connection from the state `w` of its traversal on: the calls of the callback, with an
      exception, or by `finalize_data` with the boxed pack as it is at the completion. */
  function Calls(conns: Seq.Conns, v: Val, w: Async.Walked): seq<Call>
    requires Async.EndsRight(w)
    decreases if w.paused.None? then 0 else |w.paused.value| + 1
  {
    match w.paused
    case None =>
      if Packed(v).Tuple? then [Arguments(Delivered(BoxContents(Seq.Boxes(conns, w.log)), Packed(v)))] else []
    case Some(rest) =>
      match conns(w.log[|w.log| - 1].id).Resolution()
      case Value(_) =>
        Async.WalkShrinks(Seq.Visitor(conns), rest, w.log + [Async.Resumed]);
        Async.WalkEndsRight(Seq.Visitor(conns), rest, w.log + [Async.Resumed]);
        Calls(conns, v, Async.Later(Seq.Visitor(conns), w))
      case Exception(e) => [Failure(e)]
      case Empty => []
  }

  /** From the point on where `rest` is still to be traversed. */
  function CallsFrom(conns: Seq.Conns, v: Val, rest: seq<nat>, log: seq<Async.Event>): seq<Call>
    requires Async.Completed !in log
  {
    Async.WalkEndsRight(Seq.Visitor(conns), rest, log);
    Calls(conns, v, Async.Walk(Seq.Visitor(conns), rest, log))
  }

  /** The boxes after the continuables of `order` have resolved with values. */
  function Filled(conns: Seq.Conns, order: seq<nat>): map<nat, seq<Arg>>
    requires forall i | 0 <= i < |order| :: conns(order[i]).Resolution().Value?
  {
    if order == [] then map[]
    else
      var last := order[|order| - 1];
      Filled(conns, order[..|order| - 1])[last := conns(last).Resolution().args]
  }

  lemma {:induction false} FilledHolds(conns: Seq.Conns, order: seq<nat>, id: nat)
    requires forall i | 0 <= i < |order| :: conns(order[i]).Resolution().Value?
    ensures id in Filled(conns, order) <==> id in order
    ensures id in order ==> Filled(conns, order)[id] == conns(id).Resolution().args
    decreases |order|
  {
    if order != [] {
      var init := order[..|order| - 1];
      FilledHolds(conns, init, id);
      assert order == init + [order[|order| - 1]];
    }
  }

  lemma PauseCalls(conns: Seq.Conns, v: Val, w: Async.Walked, id: nat)
    requires Async.EndsRight(w) && w.paused.Some? && w.log[|w.log| - 1].id == id && Async.Completed !in w.log
    ensures Calls(conns, v, w) ==
              match conns(id).Resolution()
              case Value(_) => CallsFrom(conns, v, w.paused.value, w.log + [Async.Resumed])
              case Exception(e) => [Failure(e)]
              case Empty => []
  {
  }

  lemma CallsOne(conns: Seq.Conns, v: Val, rest: seq<nat>, log: seq<Async.Event>)
    requires rest != [] && Async.Completed !in log
    ensures CallsFrom(conns, v, rest, log) ==
              match conns(rest[0]).Resolution()
              case Value(_) => CallsFrom(conns, v, rest[1..], Seq.After(conns, rest, log))
              case Exception(e) => [Failure(e)]
              case Empty => []
  {
    var u, id, c := Seq.Visitor(conns), rest[0], conns(rest[0]);
    var stop := log + [Async.Visited(id, false)] + [Async.Detached(id, rest[1..])];
    assert u.proceed(log, id) == c.Ready?;
    assert u.reenter(stop) == (c.Asynchronous? && c.inPlace && c.outcome.Value?);
    if c.Asynchronous? && !u.reenter(stop) {
      Async.WalkEndsRight(u, rest, log);
      assert Async.Walk(u, rest, log) == Async.Walked(stop, Some(rest[1..]));
      PauseCalls(conns, v, Async.Walked(stop, Some(rest[1..])), id);
    }
  }

  lemma CallsAtTheEnd(conns: Seq.Conns, v: Val, log: seq<Async.Event>)
    requires Packed(v).Tuple? && Async.Completed !in log
    ensures CallsFrom(conns, v, [], log) == [Arguments(Delivered(BoxContents(Seq.Boxes(conns, log)), Packed(v)))]
  {
    Seq.Snoc(conns, log, Async.Completed);
  }

  /** What the callback will have been called with once `done` has resolved with values and `rest` had its
      turns. */
  function Expected(conns: Seq.Conns, v: Val, done: seq<nat>, rest: seq<nat>): seq<Call>
    requires Packed(v).Tuple? && forall i | 0 <= i < |done| :: conns(done[i]).Resolution().Value?
  {
    var k := Seq.Stop(conns, rest);
    if k == |rest| then [Arguments(Delivered(BoxContents(Filled(conns, done + rest)), Packed(v)))]
    else
      match conns(rest[k]).Resolution()
      case Exception(e) => [Failure(e)]
      case _ => []
  }

  lemma ExpectedOne(conns: Seq.Conns, v: Val, done: seq<nat>, rest: seq<nat>)
    requires Packed(v).Tuple? && forall i | 0 <= i < |done| :: conns(done[i]).Resolution().Value?
    requires rest != [] && conns(rest[0]).Resolution().Value?
    ensures Expected(conns, v, done, rest) == Expected(conns, v, done + [rest[0]], rest[1..])
  {
    Seq.Advance(done, rest);
  }

  lemma FilledSnoc(conns: Seq.Conns, done: seq<nat>, id: nat)
    requires forall i | 0 <= i < |done| :: conns(done[i]).Resolution().Value?
    requires conns(id).Resolution().Value?
    ensures Filled(conns, done + [id]) == Filled(conns, done)[id := conns(id).Resolution().args]
  {
    assert (done + [id])[..|done|] == done;
  }

  /** One continuable with values: its box is filled, and the connection goes on with the next one. */
  lemma Advance(conns: Seq.Conns, v: Val, rest: seq<nat>, log: seq<Async.Event>) returns (log': seq<Async.Event>)
    requires rest != [] && Async.Completed !in log && conns(rest[0]).Resolution().Value?
    ensures Async.Completed !in log' && CallsFrom(conns, v, rest, log) == CallsFrom(conns, v, rest[1..], log')
    ensures Seq.Boxes(conns, log') == Seq.Boxes(conns, log)[rest[0] := conns(rest[0]).Resolution().args]
  {
    log' := Seq.After(conns, rest, log);
    CallsOne(conns, v, rest, log);
    Seq.AfterStores(conns, rest, log);
  }

  lemma {:induction false} CallsOn(conns: Seq.Conns, v: Val, done: seq<nat>, rest: seq<nat>, log: seq<Async.Event>)
    requires Packed(v).Tuple? && Async.Completed !in log
    requires forall i | 0 <= i < |done| :: conns(done[i]).Resolution().Value?
    requires Seq.Boxes(conns, log) == Filled(conns, done)
    ensures CallsFrom(conns, v, rest, log) == Expected(conns, v, done, rest)
    decreases |rest|
  {
    if rest == [] {
      assert done + rest == done;
      CallsAtTheEnd(conns, v, log);
    } else if conns(rest[0]).Resolution().Value? {
      var log' := Advance(conns, v, rest, log);
      FilledSnoc(conns, done, rest[0]);
      ExpectedOne(conns, v, done, rest);
      CallsOn(conns, v, done + [rest[0]], rest[1..], log');
    } else {
      CallsOne(conns, v, rest, log);
    }
  }

  /** What the visited continuables resolve to. */
  ghost function ResolvedBy(conns: Seq.Conns, v: Val): Filling {
    (id: nat) =>
      if id in Visited(Packer, v) && conns(id).Resolution().Value? then Some(conns(id).Resolution().args) else None
  }

  /** For every pack and every mix of ready and asynchronous continuables in it: if all resolve with values
      the callback gets the pack with each visited continuable replaced by what that one resolved to: read
      from left to right, the arguments are the pack with the results of each visited continuable in its
      place. Otherwise the callback gets the exception of the first that does not resolve with values. */
  lemma {:induction false} WhenSeqDelivers(conns: Seq.Conns, v: Val)
    requires v.Tuple? && WellTyped(v) && Unboxed(TypeOf(v)) && NoRepeat(Conts(v))
    requires Fits(v, ResolvedBy(conns, v))
    ensures var order := Async.Elements(AsPack(Packed(v)));
            var k, calls := Seq.Stop(conns, order), CallsFrom(conns, v, order, []);
            && order == Visited(Packer, v)
            && (if k == |order| then
                  && |calls| == 1 && calls[0].Arguments?
                  && AllLeaves(calls[0].args, NoResults()) == Leaves(v, ResolvedBy(conns, v))
                  && calls[0].args == ItemsOf(Settled(BoxContents(Filled(conns, order)), v))
                else
                  calls == match conns(order[k]).Resolution()
                           case Exception(e) => [Failure(e)]
                           case _ => [])
  {
    var order := Async.Elements(AsPack(Packed(v)));
    BoxesInOrder(v);
    assert [] + order == order;
    CallsOn(conns, v, [], order, []);
    if Seq.Stop(conns, order) == |order| {
      var result := BoxContents(Filled(conns, order));
      ConnectionDeliversSettledPack(result, v);
      FilledIsHeld(conns, v, order);
      EveryResultInItsPlace(result, v, ResolvedBy(conns, v));
    }
  }

  lemma BoxesInOrder(v: Val)
    requires v.Tuple? && WellTyped(v) && Unboxed(TypeOf(v))
    ensures Async.Elements(AsPack(Packed(v))) == Boxes(Packed(v)) == Visited(Packer, v) && Packed(v).Tuple?
  {
    ConnectionDeliversSettledPack(BoxContents(map[]), v);
  }

  lemma FilledIsHeld(conns: Seq.Conns, v: Val, order: seq<nat>)
    requires order == Visited(Packer, v) && forall i | 0 <= i < |order| :: conns(order[i]).Resolution().Value?
    ensures ForVisited(v, ResolvedBy(conns, v)) && Holds(BoxContents(Filled(conns, order)), ResolvedBy(conns, v))
  {
    forall id: nat ensures id in order ==> id in Filled(conns, order)
      ensures id in order ==> Filled(conns, order)[id] == conns(id).Resolution().args
    {
      FilledHolds(conns, order, id);
    }
  }
}
