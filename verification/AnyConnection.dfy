/** The `any` connection: the first result or exception to arrive is handed on, the rest is ignored. */
module AnyConnection {
  import opened Results
  import opened Remapping
  import F = Flattening

  /** The shared state of a connection: the flag and the calls of the final callback. */
  class AnyResultSubmitter {
    var flag: bool
    var delivered: seq<Outcome>

    ghost predicate Valid()
      reads this
    {
      if flag then |delivered| == 1 else delivered == []
    }

    constructor ()
      ensures Valid() && delivered == []
    {
      flag, delivered := false, [];
    }

    /** The call operator of the callback given to each continuable; `call_once` makes it one step. */
    method Invoke(o: Outcome)
      requires Valid()
      modifies this
      ensures Valid()
      ensures delivered == if old(delivered) == [] then [o] else old(delivered)
    {
      if !flag {
        flag := true;
        delivered := delivered + [o];
      }
    }
  }

  /** The first continuable to resolve while it is being started, if any does (Empty: it does not). */
  ghost predicate IsFirst(inPlace: seq<Outcome>, k: nat) {
    && k < |inPlace| && !inPlace[k].Empty?
    && forall j | 0 <= j < k :: inPlace[j].Empty?
  }

  /** The dispatch: every continuable is started, in order, even if an earlier one resolved already. The
      first one to resolve in place is handed on, and nothing if none does. */
  method Dispatch(inPlace: seq<Outcome>) returns (submitter: AnyResultSubmitter, started: seq<nat>)
    ensures fresh(submitter) && submitter.Valid()
    ensures forall k: nat | IsFirst(inPlace, k) :: submitter.delivered == [inPlace[k]]
    ensures (forall k | 0 <= k < |inPlace| :: inPlace[k].Empty?) ==> submitter.delivered == []
    ensures submitter.delivered == F.OutcomeOf(F.AnyAfter(false, F.CallsOf(inPlace), |inPlace|).call)
    ensures |started| == |inPlace| && forall i | 0 <= i < |inPlace| :: started[i] == i
  {
    submitter := new AnyResultSubmitter();
    started := [];
    for i := 0 to |inPlace|
      invariant submitter.Valid()
      invariant forall k: nat | IsFirst(inPlace, k) && k < i :: submitter.delivered == [inPlace[k]]
      invariant (forall k | 0 <= k < i :: inPlace[k].Empty?) <==> submitter.delivered == []
      invariant submitter.delivered == F.OutcomeOf(F.AnyAfter(false, F.CallsOf(inPlace), i).call)
      invariant submitter.flag == F.AnyAfter(false, F.CallsOf(inPlace), i).state
      invariant |started| == i && forall j | 0 <= j < i :: started[j] == j
    {
      started := started + [i];
      if !inPlace[i].Empty? {
        submitter.Invoke(inPlace[i]);
      }
    }
  }

  // ---------------------------------------------------------------------------------------
  // The signature
  // ---------------------------------------------------------------------------------------

  /** `result_deducer`: the signature of a pack of continuables; None where the code does not compile. */
  function Deduced(t: Ty): Option<seq<nat>> {
    match t
    case PlainTy(_) => None
    case BoxTy(_) => None
    case ContTy(s) => Some(s)
    case ContainerTy(e) => Deduced(e)
    case TupleTy(types) =>
      if types == [] then None
      else if forall i | 0 <= i < |types| :: Deduced(types[i]).Some? && Deduced(types[i]) == Deduced(types[0]) then
        Deduced(types[0])
      else None
  }

  /** The signatures of all continuables of a value. */
  predicate AllHaveSignature(v: Val, s: seq<nat>) {
    match v
    case Tuple(items) => forall i | 0 <= i < |items| :: AllHaveSignature(items[i], s)
    case Container(_, elements) => forall i | 0 <= i < |elements| :: AllHaveSignature(elements[i], s)
    case Cont(_, signature) => signature == s
    case _ => false
  }

  /** A pack that an any connection accepts consists of continuables of the deduced signature only, so
      whichever resolves first, the callback gets what its signature says; and no gate stays closed, so
      every one of them is started, once and in order. */
  lemma {:induction false} AnyIsUniform(v: Val)
    requires WellTyped(v) && Deduced(TypeOf(v)).Some?
    ensures AllHaveSignature(v, Deduced(TypeOf(v)).value)
    ensures Visited(Packer, v) == Conts(v)
  {
    DeducedIsStrict(TypeOf(v));
    StrictMeansOpen(TypeOf(v));
    OpenGatesVisitAll(v);
    DeducedIsUniform(v);
  }

  lemma {:induction false} DeducedIsStrict(t: Ty)
    requires Deduced(t).Some?
    ensures Strict(Packer, t)
  {
    match t
    case TupleTy(types) =>
      forall i | 0 <= i < |types| ensures Strict(Packer, types[i]) {
        DeducedIsStrict(types[i]);
      }
    case ContainerTy(e) => DeducedIsStrict(e);
    case _ =>
  }

  lemma {:induction false} DeducedIsUniform(v: Val)
    requires WellTyped(v) && Deduced(TypeOf(v)).Some?
    ensures AllHaveSignature(v, Deduced(TypeOf(v)).value)
    decreases v
  {
    match v
    case Tuple(items) =>
      forall i | 0 <= i < |items| ensures AllHaveSignature(items[i], Deduced(TypeOf(v)).value) {
        assert TypesOf(items)[i] == TypeOf(items[i]);
        DeducedIsUniform(items[i]);
      }
    case Container(_, elements) =>
      forall i | 0 <= i < |elements| ensures AllHaveSignature(elements[i], Deduced(TypeOf(v)).value) {
        DeducedIsUniform(elements[i]);
      }
    case _ =>
  }

  /** A type made of nothing but continuables of one signature. */
  predicate AllAre(t: Ty, s: seq<nat>) { forall l | l in LeafTypes(t) :: l == ContTy(s) }

  lemma AllAreInTuple(types: seq<Ty>, s: seq<nat>)
    requires types != []
    ensures AllAre(TupleTy(types), s) <==> forall i | 0 <= i < |types| :: AllAre(types[i], s)
  {
    forall l ensures l in LeafTypes(TupleTy(types)) <==> exists i :: 0 <= i < |types| && l in LeafTypes(types[i]) {
      LeafTypeOfTuple(types, l);
    }
    if AllAre(TupleTy(types), s) {
      forall i | 0 <= i < |types| ensures AllAre(types[i], s) {
        assert forall l | l in LeafTypes(types[i]) :: l in LeafTypes(TupleTy(types));
      }
    }
  }

  lemma DeducedOfTuple(types: seq<Ty>, s: seq<nat>)
    requires types != []
    ensures Deduced(TupleTy(types)) == Some(s) <==> forall i | 0 <= i < |types| :: Deduced(types[i]) == Some(s)
  {
    if forall i | 0 <= i < |types| :: Deduced(types[i]) == Some(s) {
      assert Deduced(types[0]) == Some(s);
    }
  }

  /** The signature that is deduced is the one that all continuables in the type have, if it is made of
      nothing but those; otherwise there is none and the connection does not compile. */
  lemma {:induction false} DeducedIff(t: Ty, s: seq<nat>)
    ensures Deduced(t) == Some(s) <==> AllAre(t, s)
    decreases t
  {
    match t
    case TupleTy(types) =>
      if types == [] {
        assert t in LeafTypes(t);
      } else {
        forall i | 0 <= i < |types| ensures Deduced(types[i]) == Some(s) <==> AllAre(types[i], s) {
          DeducedIff(types[i], s);
        }
        DeducedOfTuple(types, s);
        AllAreInTuple(types, s);
      }
    case ContainerTy(e) =>
      DeducedIff(e, s);
      assert LeafTypes(t) == LeafTypes(e);
      assert Deduced(t) == Deduced(e);
    case _ => assert t in LeafTypes(t);
  }

  /** The other direction: if a pack without empty tuples or empty containers holds nothing but
      continuables of one signature, that signature is deduced. */
  lemma {:induction false} UniformIsDeduced(v: Val, s: seq<nat>)
    requires WellTyped(v) && AllHaveSignature(v, s) && Inhabited(v)
    ensures Deduced(TypeOf(v)) == Some(s)
    decreases v
  {
    match v
    case Tuple(items) =>
      forall i | 0 <= i < |items| ensures Deduced(TypesOf(items)[i]) == Some(s) {
        UniformIsDeduced(items[i], s);
      }
    case Container(_, elements) => UniformIsDeduced(elements[0], s);
    case _ =>
  }

  predicate Inhabited(v: Val) {
    match v
    case Tuple(items) => items != [] && forall i | 0 <= i < |items| :: Inhabited(items[i])
    case Container(_, elements) => elements != [] && forall i | 0 <= i < |elements| :: Inhabited(elements[i])
    case _ => true
  }
}
