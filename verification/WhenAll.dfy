/** `when_all` from end to end: a pack is boxed, its boxes are filled by the callbacks of the protocol in
    any interleaving, and the callback gets the pack unboxed. */
module WhenAll {
  import opened Results
  import opened Remapping
  import opened Unboxing
  import All = AllConnection

  /** What the callback of the connection is called with. */
  datatype Call = Arguments(args: seq<Val>) | Failure(error: Error)

  /** The contents of the boxes. */
  function Contents(boxes: seq<Option<seq<Arg>>>): (nat, nat) -> int {
    (id: nat, j: nat) =>
      if id < |boxes| && boxes[id].Some? && j < |boxes[id].value| then boxes[id].value[j] else 0
  }

  /** The calls of the callback: with the exception, or by `finalize_data` with the boxed pack as it is
      then. */
  function Calls(s: All.State, v: Val): seq<Call> {
    if s.delivered == [] || !Packed(v).Tuple? then []
    else
      match s.delivered[0]
      case Exception(e) => [Failure(e)]
      case _ => [Arguments(Delivered(Contents(s.boxes), Packed(v)))]
  }

  /** The continuables that are visited, numbered from left to right like their boxes. */
  predicate Numbered(v: Val, n: nat) { Visited(Packer, v) == seq(n, i => i) && NoRepeat(Conts(v)) }

  /** What a run stored for the visited continuables. */
  function StoredBy(run: seq<All.Action>, n: nat): Filling {
    (id: nat) => if id < n then All.Stored(run, id) else None
  }

  /** For every pack and every interleaving of its callbacks: the callback is called at most once, and
      once if everything is resolved. The first exception to arrive fails it. Otherwise, when it is
      called every visited continuable has stored its results, and it gets the pack with each of them
      replaced by those: read from left to right, the arguments are the pack with the results of each
      visited continuable in its place. If the gates are open that is the pack it should get. */
  lemma {:induction false} WhenAllDelivers(v: Val, n: nat, run: seq<All.Action>)
    requires v.Tuple? && WellTyped(v) && Unboxed(TypeOf(v)) && Numbered(v, n)
    requires All.Run(All.Init(n), run).Some? && Fits(v, StoredBy(run, n))
    ensures var s, stored := All.Run(All.Init(n), run).value, All.AllStored(run, n);
            && (All.Errors(run) != [] ==> Calls(s, v) == [Failure(All.Errors(run)[0])])
            && (All.Errors(run) == [] && Calls(s, v) != [] ==>
                  && |Calls(s, v)| == 1 && Calls(s, v)[0].Arguments?
                  && (forall i | 0 <= i < n :: All.Stored(run, i).Some?)
                  && AllLeaves(Calls(s, v)[0].args, NoResults()) == Leaves(v, StoredBy(run, n))
                  && Calls(s, v)[0].args == ItemsOf(Settled(Contents(stored), v))
                  && (Open(TypeOf(v)) ==> Calls(s, v)[0].args == ItemsOf(Resolved(Contents(stored), v))))
            && (All.Quiescent(s) ==> |Calls(s, v)| == 1)
  {
    var s, stored := All.Run(All.Init(n), run).value, All.AllStored(run, n);
    All.AllDelivers(n, run);
    All.RunKeepsInv(n, run);
    ConnectionDeliversSettledPack(Contents(stored), v);
    ResolvedIffOpen(Contents(stored), v);
    if All.Errors(run) == [] && s.delivered != [] {
      StoredIsHeld(v, n, run);
      EveryResultInItsPlace(Contents(stored), v, StoredBy(run, n));
    }
  }

  lemma StoredIsHeld(v: Val, n: nat, run: seq<All.Action>)
    requires Numbered(v, n) && forall i | 0 <= i < n :: All.Stored(run, i).Some?
    ensures ForVisited(v, StoredBy(run, n)) && Holds(Contents(All.AllStored(run, n)), StoredBy(run, n))
  {
    forall id | id in Conts(v) ensures StoredBy(run, n)(id).Some? <==> id in Visited(Packer, v) {
      assert id < n ==> seq(n, i => i)[id] == id;
    }
  }
}
