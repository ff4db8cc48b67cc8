/** Continuables are linear: the right to invoke a continuation is passed on by every operation and
    taken up exactly once, at the latest by the destructor of the last owner, unless that is frozen. */
module Ownership {
  import opened Results

  /** The two bits of an ownership object. */
  datatype Flags = Flags(acquired: bool, frozen: bool)

  const FRESH := Flags(true, false)

  function Merge(left: Flags, right: Flags): Flags {
    Flags(left.acquired && right.acquired, left.frozen || right.frozen)
  }

  /** The flags of `left >> right`: the left operand is given the frozen bit of the right one. */
  function Shift(left: Flags, right: Flags): Flags { Flags(left.acquired, right.frozen) }

  /** The flags of `when_all`, `when_any` and `when_seq`: an ownership of its own, which visits the
      continuables of the pack and takes over a frozen bit. */
  function Prepared(own: Flags, flags: seq<Flags>): Flags
    decreases |flags|
  {
    if flags == [] then own
    else Prepared(if !own.frozen && flags[0].frozen then Flags(own.acquired, true) else own, flags[1..])
  }

  // ---------------------------------------------------------------------------------------
  // What continuables hold
  // ---------------------------------------------------------------------------------------

  /** The data of a continuable: a continuation, or a combination of what its operands held. An
      invocation starts the parts of it together, or one after another, or the second one only if the
      first one fails. */
  datatype Data =
    | Source(id: nat)
    | Together(parts: seq<Data>)
    | InOrder(parts: seq<Data>)
    | OnFailure(first: Data, second: Data)

  /** The continuations in it. */
  function Sources(d: Data): multiset<nat>
    decreases d, 0
  {
    match d
    case Source(id) => multiset{id}
    case Together(parts) => SourcesOf(parts)
    case InOrder(parts) => SourcesOf(parts)
    case OnFailure(first, second) => Sources(first) + Sources(second)
  }

  function SourcesOf(ds: seq<Data>): multiset<nat>
    decreases ds, 1
  {
    if ds == [] then multiset{} else Sources(ds[0]) + SourcesOf(ds[1..])
  }

  lemma {:induction false} SourcesSnoc(ds: seq<Data>, d: Data)
    ensures SourcesOf(ds + [d]) == SourcesOf(ds) + Sources(d)
  {
    if ds == [] {
      assert (ds + [d])[1..] == [];
    } else {
      assert (ds + [d])[1..] == ds[1..] + [d];
      SourcesSnoc(ds[1..], d);
    }
  }

  /** How the parts resolve, their handlers included. */
  datatype Ending = WithValues | WithException | Unresolved

  type Endings = Data -> Ending

  /** The continuations that an invocation of the data starts: the parts of a sequence only up to the
      first one that does not resolve with values, and what is attached to a failure only after one.
      The others are dropped with the handler or the box that holds them, frozen. */
  function Started(ends: Endings, d: Data): multiset<nat>
    decreases d, 0
  {
    match d
    case Source(id) => multiset{id}
    case Together(parts) => StartedOf(ends, parts, false)
    case InOrder(parts) => StartedOf(ends, parts, true)
    case OnFailure(first, second) =>
      Started(ends, first) + if ends(first).WithException? then Started(ends, second) else multiset{}
  }

  function StartedOf(ends: Endings, ds: seq<Data>, inOrder: bool): multiset<nat>
    decreases ds, 1
  {
    if ds == [] then multiset{}
    else
      Started(ends, ds[0])
      + if inOrder && !ends(ds[0]).WithValues? then multiset{} else StartedOf(ends, ds[1..], inOrder)
  }

  /** Everything sequenced before a continuation resolves with values, and everything it is a fallback
      for fails. */
  ghost predicate Reached(ends: Endings, d: Data, source: nat)
    decreases d, 0
  {
    match d
    case Source(id) => id == source
    case Together(parts) => ReachedIn(ends, parts, false, source)
    case InOrder(parts) => ReachedIn(ends, parts, true, source)
    case OnFailure(first, second) =>
      Reached(ends, first, source) || (ends(first).WithException? && Reached(ends, second, source))
  }

  ghost predicate ReachedIn(ends: Endings, ds: seq<Data>, inOrder: bool, source: nat)
    decreases ds, 1
  {
    exists i :: 0 <= i < |ds| && Reached(ends, ds[i], source) && (inOrder ==> AllSucceed(ends, ds, i))
  }

  predicate AllSucceed(ends: Endings, ds: seq<Data>, n: nat)
    requires n <= |ds|
  {
    forall j | 0 <= j < n :: ends(ds[j]).WithValues?
  }

  lemma {:induction false} StartedIffReached(ends: Endings, d: Data, source: nat)
    ensures Started(ends, d)[source] > 0 <==> Reached(ends, d, source)
    ensures Started(ends, d)[source] <= Sources(d)[source]
    decreases d, 0
  {
    match d
    case Source(_) =>
    case Together(parts) => StartedIffReachedIn(ends, parts, false, source);
    case InOrder(parts) => StartedIffReachedIn(ends, parts, true, source);
    case OnFailure(first, second) =>
      StartedIffReached(ends, first, source);
      StartedIffReached(ends, second, source);
  }

  lemma {:induction false} StartedIffReachedIn(ends: Endings, ds: seq<Data>, inOrder: bool, source: nat)
    ensures StartedOf(ends, ds, inOrder)[source] > 0 <==> ReachedIn(ends, ds, inOrder, source)
    ensures StartedOf(ends, ds, inOrder)[source] <= SourcesOf(ds)[source]
    decreases ds, 1
  {
    if ds != [] {
      StartedIffReached(ends, ds[0], source);
      StartedIffReachedIn(ends, ds[1..], inOrder, source);
      ReachedFirstOrLater(ends, ds, inOrder, source);
    }
  }

  lemma ReachedFirstOrLater(ends: Endings, ds: seq<Data>, inOrder: bool, source: nat)
    requires ds != []
    ensures ReachedIn(ends, ds, inOrder, source) <==>
              || Reached(ends, ds[0], source)
              || ((inOrder ==> ends(ds[0]).WithValues?) && ReachedIn(ends, ds[1..], inOrder, source))
  {
    var rest := ds[1..];
    if i :| 0 <= i < |ds| && Reached(ends, ds[i], source) && (inOrder ==> AllSucceed(ends, ds, i)) {
      if i > 0 {
        assert rest[i - 1] == ds[i] && forall j | 0 <= j < i - 1 :: rest[j] == ds[j + 1];
      }
    }
    if (inOrder ==> ends(ds[0]).WithValues?) && ReachedIn(ends, rest, inOrder, source) {
      var i :| 0 <= i < |rest| && Reached(ends, rest[i], source) && (inOrder ==> AllSucceed(ends, rest, i));
      assert ds[i + 1] == rest[i];
      if inOrder {
        forall j | 0 <= j < i + 1 ensures ends(ds[j]).WithValues? {
          assert j > 0 ==> ends(rest[j - 1]).WithValues?;
        }
      }
    }
  }

  // ---------------------------------------------------------------------------------------
  // Programs over continuables
  // ---------------------------------------------------------------------------------------

  /** A continuable object: its data, and its ownership. */
  datatype Object = Object(data: Data, flags: Flags)

  /** All objects ever created, None once destroyed; the data handed to an invocation; and the
      continuations that were given up without one. */
  datatype State = State(objects: seq<Option<Object>>, launched: seq<Data>, abandoned: multiset<nat>)

  /** Operations on objects by number; results are new objects, appended to the sequence. The
      continuables that the mapping of a pack does not reach are not operands: those are moved. */
  datatype Op =
    | Create(source: nat)
    | Move(from: nat)
    | MoveAssign(from: nat, to: nat)
    | Convert(from: nat)                          // to another data type, such as a type erased one
    | Then(from: nat)                             // then, fail, next, via, as, finish
    | Follow(left: nat, right: nat, onFailure: bool)  // then and fail with a continuable
    | Connect(left: nat, right: nat)              // && and ||
    | Sequence(left: nat, right: nat)             // >>
    | Pack(operands: seq<nat>, inOrder: bool)     // when_all and when_any, when_seq
    | Freeze(at: nat, enabled: bool)
    | Done(at: nat)                               // done, unpack, co_await
    | Destroy(at: nat)

  predicate Live(s: State, i: nat) { i < |s.objects| && s.objects[i].Some? }

  predicate Acquired(s: State, i: nat) { Live(s, i) && s.objects[i].value.flags.acquired }

  predicate Distinct(operands: seq<nat>) { forall i, j | 0 <= i < j < |operands| :: operands[i] != operands[j] }

  /** What the assertions of the code demand; moving from a released object is allowed. */
  predicate Enabled(s: State, op: Op) {
    match op
    case Create(_) => true
    case Move(i) => Live(s, i)
    case MoveAssign(i, j) => Live(s, i) && Live(s, j) && i != j
    case Convert(i) => Acquired(s, i)
    case Then(i) => Acquired(s, i)
    case Follow(l, r, _) => Acquired(s, l) && Acquired(s, r) && l != r
    case Connect(l, r) => Acquired(s, l) && Acquired(s, r) && l != r
    case Sequence(l, r) => Acquired(s, l) && Acquired(s, r) && l != r
    case Pack(operands, _) => Distinct(operands) && forall k | 0 <= k < |operands| :: Acquired(s, operands[k])
    case Freeze(i, _) => Acquired(s, i)
    case Done(i) => Acquired(s, i)
    case Destroy(i) => Live(s, i)
  }

  /** An object that was moved from or consumed. */
  function Released(o: Object): Object { o.(flags := Flags(false, o.flags.frozen)) }

  function Frozen(o: Object, enabled: bool): Object { o.(flags := Flags(o.flags.acquired, enabled)) }

  function Converted(o: Object): Object { Object(o.data, FRESH) }

  function Connected(x: Object, y: Object): Object { Object(Together([x.data, y.data]), Merge(x.flags, y.flags)) }

  function Sequenced(x: Object, y: Object): Object { Object(InOrder([x.data, y.data]), Shift(x.flags, y.flags)) }

  /** The right operand is held by a handler of the left one; only the left one's flags are passed on. */
  function Followed(x: Object, y: Object, onFailure: bool): Object {
    Object(if onFailure then OnFailure(x.data, y.data) else InOrder([x.data, y.data]), x.flags)
  }

  function DataOf(os: seq<Object>): seq<Data> { seq(|os|, i requires 0 <= i < |os| => os[i].data) }

  function FlagsOf(os: seq<Object>): seq<Flags> { seq(|os|, i requires 0 <= i < |os| => os[i].flags) }

  function Packed(os: seq<Object>, inOrder: bool): Object {
    Object(if inOrder then InOrder(DataOf(os)) else Together(DataOf(os)), Prepared(FRESH, FlagsOf(os)))
  }

  /** The continuations an object is responsible for. */
  function Owns(o: Option<Object>): multiset<nat> {
    if o.Some? && o.value.flags.acquired then Sources(o.value.data) else multiset{}
  }

  function Set(s: State, i: nat, o: Object): State
    requires i < |s.objects|
  {
    s.(objects := s.objects[i := Some(o)])
  }

  function Append(s: State, o: Object): State { s.(objects := s.objects + [Some(o)]) }

  predicate AllLive(s: State, operands: seq<nat>) { forall k | 0 <= k < |operands| :: Live(s, operands[k]) }

  function Operands(s: State, operands: seq<nat>): seq<Object>
    requires AllLive(s, operands)
  {
    seq(|operands|, k requires 0 <= k < |operands| => assert Live(s, operands[k]); s.objects[operands[k]].value)
  }

  /** The operands are frozen and then consumed, one after another. */
  function TakeAll(s: State, operands: seq<nat>): State
    requires AllLive(s, operands)
    decreases |operands|
  {
    if operands == [] then s else TakeAll(TakeFirst(s, operands), operands[1..])
  }

  function TakeFirst(s: State, operands: seq<nat>): (t: State)
    requires AllLive(s, operands) && operands != []
    ensures AllLive(t, operands[1..])
  {
    assert Live(s, operands[0]);
    var t := Set(s, operands[0], Released(Frozen(s.objects[operands[0]].value, true)));
    assert forall k | 0 <= k < |operands[1..]| :: Live(s, operands[k + 1]) && operands[1..][k] == operands[k + 1];
    t
  }

  function Step(s: State, op: Op): State
    requires Enabled(s, op)
  {
    match op
    case Create(source) => Append(s, Object(Source(source), FRESH))
    case Move(i) =>
      var o := s.objects[i].value;
      Append(Set(s, i, Released(o)), o)
    case MoveAssign(i, j) =>
      // The flags and the data of the target are overwritten, nothing is invoked.
      var o := s.objects[i].value;
      Set(Set(s, i, Released(o)), j, o).(abandoned := s.abandoned + Owns(s.objects[j]))
    case Convert(i) =>
      // The new object takes the data and starts with an ownership of its own.
      var o := s.objects[i].value;
      Append(Set(s, i, Released(o)), Converted(o))
    case Then(i) =>
      var o := s.objects[i].value;
      Append(Set(s, i, Released(o)), o)
    case Follow(l, r, onFailure) =>
      var x, y := s.objects[l].value, s.objects[r].value;
      Append(Set(Set(s, l, Released(x)), r, Released(Frozen(y, true))), Followed(x, y, onFailure))
    case Connect(l, r) =>
      Append(TakeAll(s, [l, r]), Connected(s.objects[l].value, s.objects[r].value))
    case Sequence(l, r) =>
      var x, y := s.objects[l].value, s.objects[r].value;
      Append(Set(Set(s, l, Released(Frozen(x, y.flags.frozen))), r, Released(Frozen(y, true))), Sequenced(x, y))
    case Pack(operands, inOrder) =>
      assert AllLive(s, operands) by { assert forall k | 0 <= k < |operands| :: Acquired(s, operands[k]); }
      Append(TakeAll(s, operands), Packed(Operands(s, operands), inOrder))
    case Freeze(i, enabled) => Set(s, i, Frozen(s.objects[i].value, enabled))
    case Done(i) =>
      var o := s.objects[i].value;
      Set(s, i, Released(o)).(launched := s.launched + [o.data])
    case Destroy(i) =>
      var o := s.objects[i].value;
      var gone := s.(objects := s.objects[i := None]);
      if !o.flags.acquired then gone
      else if !o.flags.frozen then gone.(launched := s.launched + [o.data])
      else gone.(abandoned := s.abandoned + Sources(o.data))
  }

  function Init(): State { State([], [], multiset{}) }

  function Run(ops: seq<Op>): Option<State> {
    if ops == [] then Some(Init())
    else
      match Run(ops[..|ops| - 1])
      case None => None
      case Some(s) => if Enabled(s, ops[|ops| - 1]) then Some(Step(s, ops[|ops| - 1])) else None
  }

  // ---------------------------------------------------------------------------------------
  // Conservation
  // ---------------------------------------------------------------------------------------

  /** How many owners of a continuation there are. */
  function Owners(objects: seq<Option<Object>>, source: nat): nat {
    if objects == [] then 0 else Owns(objects[0])[source] + Owners(objects[1..], source)
  }

  lemma {:induction false} OwnersUpdate(objects: seq<Option<Object>>, i: nat, o: Option<Object>, source: nat)
    requires i < |objects|
    ensures Owners(objects[i := o], source) == Owners(objects, source) - Owns(objects[i])[source] + Owns(o)[source]
  {
    if i == 0 {
      assert objects[i := o][1..] == objects[1..];
    } else {
      assert objects[i := o][1..] == objects[1..][i - 1 := o];
      OwnersUpdate(objects[1..], i - 1, o, source);
    }
  }

  lemma {:induction false} OwnersAppend(objects: seq<Option<Object>>, o: Option<Object>, source: nat)
    ensures Owners(objects + [o], source) == Owners(objects, source) + Owns(o)[source]
  {
    if objects == [] {
      assert objects + [o] == [o];
      assert Owners([o], source) == Owns(o)[source] + Owners([], source);
    } else {
      assert (objects + [o])[1..] == objects[1..] + [o];
      OwnersAppend(objects[1..], o, source);
    }
  }

  /** How often a continuation was handed to an invocation. */
  function Launched(s: State, source: nat): nat { SourcesOf(s.launched)[source] }

  /** Everything that is accounted for: owned, handed to an invocation, or given up. */
  function Total(s: State, source: nat): nat {
    Owners(s.objects, source) + Launched(s, source) + s.abandoned[source]
  }

  function CreatedBy(op: Op, source: nat): nat { if op == Create(source) then 1 else 0 }

  lemma SetTotal(s: State, i: nat, o: Object, source: nat)
    requires i < |s.objects|
    ensures Total(Set(s, i, o), source) == Total(s, source) - Owns(s.objects[i])[source] + Owns(Some(o))[source]
  {
    OwnersUpdate(s.objects, i, Some(o), source);
  }

  lemma AppendTotal(s: State, o: Object, source: nat)
    ensures Total(Append(s, o), source) == Total(s, source) + Owns(Some(o))[source]
  {
    OwnersAppend(s.objects, Some(o), source);
  }

  /** No operation duplicates or loses a continuation. */
  lemma StepConserves(s: State, op: Op, source: nat)
    requires Enabled(s, op)
    ensures Total(Step(s, op), source) == Total(s, source) + CreatedBy(op, source)
  {
    match op
    case Create(c) => AppendTotal(s, Object(Source(c), FRESH), source);
    case Move(i) => PassOnConserves(s, i, s.objects[i].value, source);
    case MoveAssign(i, j) => AssignConserves(s, i, j, source);
    case Convert(i) => PassOnConserves(s, i, Converted(s.objects[i].value), source);
    case Then(i) => PassOnConserves(s, i, s.objects[i].value, source);
    case Follow(l, r, onFailure) => FollowConserves(s, l, r, onFailure, source);
    case Connect(l, r) => ConnectConserves(s, l, r, source);
    case Sequence(l, r) => SequenceConserves(s, l, r, source);
    case Pack(operands, inOrder) => PackConserves(s, operands, inOrder, source);
    case Freeze(i, enabled) => SetTotal(s, i, Frozen(s.objects[i].value, enabled), source);
    case Done(i) => EndConserves(s, op, source);
    case Destroy(i) => EndConserves(s, op, source);
  }

  lemma AssignConserves(s: State, i: nat, j: nat, source: nat)
    requires Enabled(s, MoveAssign(i, j))
    ensures Total(Step(s, MoveAssign(i, j)), source) == Total(s, source)
  {
    var o := s.objects[i].value;
    SetTotal(s, i, Released(o), source);
    SetTotal(Set(s, i, Released(o)), j, o, source);
  }

  lemma EndConserves(s: State, op: Op, source: nat)
    requires Enabled(s, op) && (op.Done? || op.Destroy?)
    ensures Total(Step(s, op), source) == Total(s, source)
  {
    var o := s.objects[op.at].value;
    OwnersUpdate(s.objects, op.at, if op.Done? then Some(Released(o)) else None, source);
    SourcesSnoc(s.launched, o.data);
  }

  /** One object is consumed for a new one with the same responsibility. */
  lemma PassOnConserves(s: State, i: nat, o: Object, source: nat)
    requires Live(s, i) && Owns(Some(o))[source] == Owns(s.objects[i])[source]
    ensures Total(Append(Set(s, i, Released(s.objects[i].value)), o), source) == Total(s, source)
  {
    SetTotal(s, i, Released(s.objects[i].value), source);
    AppendTotal(Set(s, i, Released(s.objects[i].value)), o, source);
  }

  lemma TwoSources(d: Data, e: Data)
    ensures SourcesOf([d, e]) == Sources(d) + Sources(e)
  {
    assert [d, e][1..] == [e] && SourcesOf([e]) == Sources(e) + SourcesOf([]);
  }

  /** Two objects are consumed, left with any flags, for a new one with the responsibility of both. */
  lemma TwoConserve(s: State, l: nat, x: Object, r: nat, y: Object, o: Object, source: nat)
    requires Acquired(s, l) && Acquired(s, r) && l != r && !x.flags.acquired && !y.flags.acquired
    requires Owns(Some(o)) == Owns(s.objects[l]) + Owns(s.objects[r])
    ensures Total(Append(Set(Set(s, l, x), r, y), o), source) == Total(s, source)
  {
    SetTotal(s, l, x, source);
    SetTotal(Set(s, l, x), r, y, source);
    AppendTotal(Set(Set(s, l, x), r, y), o, source);
  }

  lemma FollowConserves(s: State, l: nat, r: nat, onFailure: bool, source: nat)
    requires Enabled(s, Follow(l, r, onFailure))
    ensures Total(Step(s, Follow(l, r, onFailure)), source) == Total(s, source)
  {
    var x, y := s.objects[l].value, s.objects[r].value;
    TwoSources(x.data, y.data);
    TwoConserve(s, l, Released(x), r, Released(Frozen(y, true)), Followed(x, y, onFailure), source);
  }

  lemma SequenceConserves(s: State, l: nat, r: nat, source: nat)
    requires Enabled(s, Sequence(l, r))
    ensures Total(Step(s, Sequence(l, r)), source) == Total(s, source)
  {
    var x, y := s.objects[l].value, s.objects[r].value;
    var x', y' := Released(Frozen(x, y.flags.frozen)), Released(Frozen(y, true));
    TwoSources(x.data, y.data);
    TwoConserve(s, l, x', r, y', Sequenced(x, y), source);
  }

  /** Several objects are consumed for a new one with the same responsibility. */
  lemma CombineConserves(s: State, operands: seq<nat>, o: Object, source: nat)
    requires Distinct(operands) && AllLive(s, operands) && forall k | 0 <= k < |operands| :: Acquired(s, operands[k])
    requires Owns(Some(o)) == SourcesOf(DataOf(Operands(s, operands)))
    ensures Total(Append(TakeAll(s, operands), o), source) == Total(s, source)
  {
    TakeAllTotal(s, operands, source);
    AppendTotal(TakeAll(s, operands), o, source);
  }

  lemma ConnectConserves(s: State, l: nat, r: nat, source: nat)
    requires Enabled(s, Connect(l, r))
    ensures Total(Step(s, Connect(l, r)), source) == Total(s, source)
  {
    assert DataOf(Operands(s, [l, r])) == [s.objects[l].value.data, s.objects[r].value.data];
    CombineConserves(s, [l, r], Connected(s.objects[l].value, s.objects[r].value), source);
  }

  lemma PackConserves(s: State, operands: seq<nat>, inOrder: bool, source: nat)
    requires Enabled(s, Pack(operands, inOrder))
    ensures Total(Step(s, Pack(operands, inOrder)), source) == Total(s, source)
  {
    assert AllLive(s, operands) by { assert forall k | 0 <= k < |operands| :: Acquired(s, operands[k]); }
    PackIsFrozenIffSomeContinuableWas(FRESH, FlagsOf(Operands(s, operands)));
    CombineConserves(s, operands, Packed(Operands(s, operands), inOrder), source);
  }

  lemma {:induction false} TakeAllTotal(s: State, operands: seq<nat>, source: nat)
    requires Distinct(operands) && AllLive(s, operands) && forall k | 0 <= k < |operands| :: Acquired(s, operands[k])
    ensures Total(TakeAll(s, operands), source) == Total(s, source) - SourcesOf(DataOf(Operands(s, operands)))[source]
    decreases |operands|
  {
    if operands != [] {
      var i, rest, t := operands[0], operands[1..], TakeFirst(s, operands);
      assert Acquired(s, i);
      SetTotal(s, i, Released(Frozen(s.objects[i].value, true)), source);
      TakeFirstKeepsRest(s, operands);
      TakeAllTotal(t, rest, source);
    }
  }

  lemma TakeFirstKeepsRest(s: State, operands: seq<nat>)
    requires Distinct(operands) && AllLive(s, operands) && operands != []
    requires forall k | 0 <= k < |operands| :: Acquired(s, operands[k])
    ensures var t, rest := TakeFirst(s, operands), operands[1..];
            && Distinct(rest) && (forall k | 0 <= k < |rest| :: Acquired(t, rest[k]))
            && DataOf(Operands(t, rest)) == DataOf(Operands(s, operands))[1..]
  {
    var t, rest := TakeFirst(s, operands), operands[1..];
    forall k | 0 <= k < |rest| ensures Acquired(t, rest[k]) && t.objects[rest[k]] == s.objects[operands[k + 1]] {
      assert rest[k] == operands[k + 1] && operands[0] != operands[k + 1] && Acquired(s, operands[k + 1]);
    }
  }

  /** How often a program creates a continuation. */
  function Created(ops: seq<Op>, source: nat): nat {
    if ops == [] then 0 else Created(ops[..|ops| - 1], source) + CreatedBy(ops[|ops| - 1], source)
  }

  lemma {:induction false} RunConserves(ops: seq<Op>, source: nat)
    requires Run(ops).Some?
    ensures Total(Run(ops).value, source) == Created(ops, source)
    decreases |ops|
  {
    if ops != [] {
      var init := ops[..|ops| - 1];
      RunConserves(init, source);
      StepConserves(Run(init).value, ops[|ops| - 1], source);
    }
  }

  /** Handed to an invocation by an operation: a `done`, or the destructor of an owner that is not
      frozen. */
  predicate InvokesNow(s: State, op: Op, source: nat) {
    && (op.Done? || op.Destroy?) && Acquired(s, op.at)
    && source in Owns(s.objects[op.at])
    && (op.Done? || !s.objects[op.at].value.flags.frozen)
  }

  /** Given up by an operation: the destructor of a frozen owner, or an assignment to an owner. */
  predicate AbandonsNow(s: State, op: Op, source: nat) {
    || (op.Destroy? && Acquired(s, op.at) && s.objects[op.at].value.flags.frozen && source in Owns(s.objects[op.at]))
    || (op.MoveAssign? && Acquired(s, op.to) && source in Owns(s.objects[op.to]))
  }

  /** Taking operands touches nothing but their ownership. */
  lemma {:induction false} TakeAllKeeps(s: State, operands: seq<nat>)
    requires AllLive(s, operands)
    ensures var t := TakeAll(s, operands);
            && t.launched == s.launched && t.abandoned == s.abandoned && |t.objects| == |s.objects|
            && forall i | 0 <= i < |s.objects| ::
                 if i in operands then t.objects[i].Some? && !t.objects[i].value.flags.acquired
                 else t.objects[i] == s.objects[i]
    decreases |operands|
  {
    if operands != [] {
      TakeAllKeeps(TakeFirst(s, operands), operands[1..]);
      assert forall i | i in operands :: i == operands[0] || i in operands[1..];
    }
  }

  lemma StepInvokes(s: State, op: Op, source: nat)
    requires Enabled(s, op)
    ensures Launched(Step(s, op), source) > 0 <==> Launched(s, source) > 0 || InvokesNow(s, op, source)
    ensures !InvokesNow(s, op, source) ==> Launched(Step(s, op), source) == Launched(s, source)
  {
    if op.Done? || op.Destroy? {
      SourcesSnoc(s.launched, s.objects[op.at].value.data);
    } else if op.Pack? {
      TakeAllKeeps(s, op.operands);
    } else if op.Connect? {
      TakeAllKeeps(s, [op.left, op.right]);
    }
  }

  lemma StepAbandons(s: State, op: Op, source: nat)
    requires Enabled(s, op)
    ensures Step(s, op).abandoned[source] > 0 <==> s.abandoned[source] > 0 || AbandonsNow(s, op, source)
  {
    if op.Pack? {
      TakeAllKeeps(s, op.operands);
    } else if op.Connect? {
      TakeAllKeeps(s, [op.left, op.right]);
    }
  }

  /** Whether some operation of a program does so. */
  predicate InvokedIn(ops: seq<Op>, source: nat) {
    ops != [] &&
    var init := ops[..|ops| - 1];
    InvokedIn(init, source) || (Run(init).Some? && InvokesNow(Run(init).value, ops[|ops| - 1], source))
  }

  predicate AbandonedIn(ops: seq<Op>, source: nat) {
    ops != [] &&
    var init := ops[..|ops| - 1];
    AbandonedIn(init, source) || (Run(init).Some? && AbandonsNow(Run(init).value, ops[|ops| - 1], source))
  }

  lemma {:induction false} InvokedInRun(ops: seq<Op>, source: nat)
    requires Run(ops).Some?
    ensures Launched(Run(ops).value, source) > 0 <==> InvokedIn(ops, source)
    decreases |ops|
  {
    if ops != [] {
      InvokedInRun(ops[..|ops| - 1], source);
      StepInvokes(Run(ops[..|ops| - 1]).value, ops[|ops| - 1], source);
    }
  }

  lemma {:induction false} AbandonedInRun(ops: seq<Op>, source: nat)
    requires Run(ops).Some?
    ensures Run(ops).value.abandoned[source] > 0 <==> AbandonedIn(ops, source)
    decreases |ops|
  {
    if ops != [] {
      AbandonedInRun(ops[..|ops| - 1], source);
      StepAbandons(Run(ops[..|ops| - 1]).value, ops[|ops| - 1], source);
    }
  }

  /** Over every program: a continuation has at most one owner and is handed to an invocation at most
      once, and never also given up. That happens if and only if an owner of it was done or was
      destroyed unfrozen; it is given up if and only if an owner was destroyed frozen or overwritten;
      once all objects are destroyed, exactly one of the two happened, exactly once. */
  lemma {:induction false} OwnershipIsLinear(ops: seq<Op>, source: nat)
    requires Run(ops).Some? && Created(ops, source) == 1
    ensures var s := Run(ops).value;
            && Owners(s.objects, source) + Launched(s, source) + s.abandoned[source] == 1
            && (Launched(s, source) == 1 <==> InvokedIn(ops, source))
            && (s.abandoned[source] == 1 <==> AbandonedIn(ops, source))
            && ((forall i | 0 <= i < |s.objects| :: s.objects[i].None?) ==>
                  Launched(s, source) + s.abandoned[source] == 1)
  {
    RunConserves(ops, source);
    InvokedInRun(ops, source);
    AbandonedInRun(ops, source);
    var s := Run(ops).value;
    if forall i | 0 <= i < |s.objects| :: s.objects[i].None? {
      NobodyOwns(s.objects, source);
    }
  }

  /** What the invocations start: a continuation is started at most once over the whole program, and
      if and only if it was handed to an invocation in which everything sequenced before it resolved
      with values and everything it is a fallback for failed. */
  lemma StartedAtMostOnce(ops: seq<Op>, source: nat, ends: Endings)
    requires Run(ops).Some? && Created(ops, source) == 1
    ensures var launched := Run(ops).value.launched;
            && StartedOf(ends, launched, false)[source] <= 1
            && (StartedOf(ends, launched, false)[source] == 1 <==>
                  exists k :: 0 <= k < |launched| && Reached(ends, launched[k], source))
  {
    OwnershipIsLinear(ops, source);
    StartedIffReachedIn(ends, Run(ops).value.launched, false, source);
  }

  lemma {:induction false} NobodyOwns(objects: seq<Option<Object>>, source: nat)
    requires forall i | 0 <= i < |objects| :: objects[i].None?
    ensures Owners(objects, source) == 0
  {
    if objects != [] {
      NobodyOwns(objects[1..], source);
    }
  }

  // ---------------------------------------------------------------------------------------
  // What freezing means
  // ---------------------------------------------------------------------------------------

  /** Every owner of a continuation is frozen. */
  ghost predicate AllFrozen(s: State, source: nat) {
    forall i | 0 <= i < |s.objects| && source in Owns(s.objects[i]) :: s.objects[i].value.flags.frozen
  }

  predicate OwnedBy(s: State, i: nat, source: nat) { i < |s.objects| && source in Owns(s.objects[i]) }

  /** The operations that end a freeze: `done`, `freeze(false)` and a conversion of an owner; `>>` with an
      owner on its left and an unfrozen continuable on its right; and `then` or `fail` of an unfrozen
      continuable with an owner as the argument. Creating a continuation makes an unfrozen owner. */
  predicate Thaws(s: State, op: Op, source: nat) {
    match op
    case Create(c) => c == source
    case Convert(i) => OwnedBy(s, i, source)
    case Sequence(l, r) => OwnedBy(s, l, source) && Acquired(s, r) && !s.objects[r].value.flags.frozen
    case Follow(l, r, _) => OwnedBy(s, r, source) && Acquired(s, l) && !s.objects[l].value.flags.frozen
    case Freeze(i, enabled) => !enabled && OwnedBy(s, i, source)
    case Done(i) => OwnedBy(s, i, source)
    case _ => false
  }

  /** The exact effect of one operation on a frozen continuation: it stays frozen and is not invoked
      unless the operation is one of those. */
  lemma FrozenUnlessThawed(s: State, op: Op, source: nat)
    requires Enabled(s, op) && AllFrozen(s, source)
    ensures AllFrozen(Step(s, op), source) && Launched(Step(s, op), source) == Launched(s, source)
       <==> !Thaws(s, op, source)
  {
    if Thaws(s, op, source) {
      ThawedIsExposed(s, op, source);
    } else {
      StaysFrozen(s, op, source);
      StepInvokes(s, op, source);
    }
  }

  lemma ThawedIsExposed(s: State, op: Op, source: nat)
    requires Enabled(s, op) && Thaws(s, op, source)
    ensures !AllFrozen(Step(s, op), source) || Launched(Step(s, op), source) > Launched(s, source)
  {
    var t := Step(s, op);
    match op
    case Done(i) => SourcesSnoc(s.launched, s.objects[i].value.data);
    case Freeze(i, _) => assert source in Owns(t.objects[i]);
    case Sequence(l, r) =>
      TwoSources(s.objects[l].value.data, s.objects[r].value.data);
      assert source in Owns(t.objects[|s.objects|]);
    case Follow(l, r, _) =>
      TwoSources(s.objects[l].value.data, s.objects[r].value.data);
      assert source in Owns(t.objects[|s.objects|]);
    case Create(_) => assert source in Owns(t.objects[|s.objects|]);
    case Convert(_) => assert source in Owns(t.objects[|s.objects|]);
    case _ =>
  }

  predicate FrozenOr(o: Object, source: nat) { source in Owns(Some(o)) ==> o.flags.frozen }

  lemma SetStaysFrozen(s: State, i: nat, o: Object, source: nat)
    requires i < |s.objects| && AllFrozen(s, source) && FrozenOr(o, source)
    ensures AllFrozen(Set(s, i, o), source)
  {
    var t := Set(s, i, o);
    assert forall k | 0 <= k < |t.objects| && k != i :: t.objects[k] == s.objects[k];
  }

  lemma AppendStaysFrozen(s: State, o: Object, source: nat)
    requires AllFrozen(s, source) && FrozenOr(o, source)
    ensures AllFrozen(Append(s, o), source)
  {
    var t := Append(s, o);
    assert forall k | 0 <= k < |s.objects| :: t.objects[k] == s.objects[k];
  }

  lemma PassOnStaysFrozen(s: State, i: nat, o: Object, source: nat)
    requires Live(s, i) && AllFrozen(s, source) && FrozenOr(o, source)
    ensures AllFrozen(Append(Set(s, i, Released(s.objects[i].value)), o), source)
  {
    SetStaysFrozen(s, i, Released(s.objects[i].value), source);
    AppendStaysFrozen(Set(s, i, Released(s.objects[i].value)), o, source);
  }

  lemma TwoStayFrozen(s: State, l: nat, x: Object, r: nat, y: Object, o: Object, source: nat)
    requires Live(s, l) && Live(s, r) && !x.flags.acquired && !y.flags.acquired
    requires AllFrozen(s, source) && FrozenOr(o, source)
    ensures AllFrozen(Append(Set(Set(s, l, x), r, y), o), source)
  {
    SetStaysFrozen(s, l, x, source);
    SetStaysFrozen(Set(s, l, x), r, y, source);
    AppendStaysFrozen(Set(Set(s, l, x), r, y), o, source);
  }

  lemma FollowStaysFrozen(s: State, l: nat, r: nat, onFailure: bool, source: nat)
    requires Enabled(s, Follow(l, r, onFailure)) && AllFrozen(s, source)
    requires !Thaws(s, Follow(l, r, onFailure), source)
    ensures AllFrozen(Step(s, Follow(l, r, onFailure)), source)
  {
    var x, y := s.objects[l].value, s.objects[r].value;
    TwoSources(x.data, y.data);
    TwoStayFrozen(s, l, Released(x), r, Released(Frozen(y, true)), Followed(x, y, onFailure), source);
  }

  lemma SequenceStaysFrozen(s: State, l: nat, r: nat, source: nat)
    requires Enabled(s, Sequence(l, r)) && AllFrozen(s, source) && !Thaws(s, Sequence(l, r), source)
    ensures AllFrozen(Step(s, Sequence(l, r)), source)
  {
    var x, y := s.objects[l].value, s.objects[r].value;
    var x', y' := Released(Frozen(x, y.flags.frozen)), Released(Frozen(y, true));
    TwoSources(x.data, y.data);
    TwoStayFrozen(s, l, x', r, y', Sequenced(x, y), source);
  }

  lemma StaysFrozen(s: State, op: Op, source: nat)
    requires Enabled(s, op) && AllFrozen(s, source) && !Thaws(s, op, source)
    ensures AllFrozen(Step(s, op), source)
  {
    match op
    case Create(c) => AppendStaysFrozen(s, Object(Source(c), FRESH), source);
    case Move(i) => PassOnStaysFrozen(s, i, s.objects[i].value, source);
    case MoveAssign(i, j) =>
      var o := s.objects[i].value;
      SetStaysFrozen(s, i, Released(o), source);
      SetStaysFrozen(Set(s, i, Released(o)), j, o, source);
    case Convert(i) => PassOnStaysFrozen(s, i, Converted(s.objects[i].value), source);
    case Then(i) => PassOnStaysFrozen(s, i, s.objects[i].value, source);
    case Follow(l, r, onFailure) => FollowStaysFrozen(s, l, r, onFailure, source);
    case Connect(l, r) => ConnectStaysFrozen(s, l, r, source);
    case Sequence(l, r) => SequenceStaysFrozen(s, l, r, source);
    case Pack(operands, inOrder) => PackStaysFrozen(s, operands, inOrder, source);
    case Freeze(i, enabled) => SetStaysFrozen(s, i, Frozen(s.objects[i].value, enabled), source);
    case Done(i) => SetStaysFrozen(s, i, Released(s.objects[i].value), source);
    case Destroy(i) =>
      var t := Step(s, op);
      assert forall k | 0 <= k < |t.objects| && k != i :: t.objects[k] == s.objects[k];
  }

  /** Where a continuation of a combined object came from. */
  lemma {:induction false} SomeOperandHeld(ds: seq<Data>, source: nat) returns (k: nat)
    requires source in SourcesOf(ds)
    ensures k < |ds| && source in Sources(ds[k])
  {
    if source in Sources(ds[0]) {
      k := 0;
    } else {
      k := SomeOperandHeld(ds[1..], source);
      k := k + 1;
    }
  }

  lemma HeldByOperand(s: State, operands: seq<nat>, source: nat) returns (k: nat)
    requires AllLive(s, operands) && AllFrozen(s, source)
    requires forall k | 0 <= k < |operands| :: Acquired(s, operands[k])
    requires source in SourcesOf(DataOf(Operands(s, operands)))
    ensures k < |operands| && Operands(s, operands)[k].flags.frozen
  {
    k := SomeOperandHeld(DataOf(Operands(s, operands)), source);
    assert Acquired(s, operands[k]);
    assert source in Owns(s.objects[operands[k]]);
  }

  lemma CombinedStaysFrozen(s: State, operands: seq<nat>, o: Object, source: nat)
    requires AllLive(s, operands) && AllFrozen(s, source) && FrozenOr(o, source)
    ensures AllFrozen(Append(TakeAll(s, operands), o), source)
  {
    var t := TakeAll(s, operands);
    TakeAllKeeps(s, operands);
    forall i | 0 <= i < |t.objects| && source in Owns(t.objects[i])
      ensures t.objects[i].value.flags.frozen
    {
      assert i !in operands && source in Owns(s.objects[i]);
    }
    AppendStaysFrozen(t, o, source);
  }

  lemma ConnectStaysFrozen(s: State, l: nat, r: nat, source: nat)
    requires Enabled(s, Connect(l, r)) && AllFrozen(s, source)
    ensures AllFrozen(Step(s, Connect(l, r)), source)
  {
    TwoSources(s.objects[l].value.data, s.objects[r].value.data);
    CombinedStaysFrozen(s, [l, r], Connected(s.objects[l].value, s.objects[r].value), source);
  }

  lemma PackStaysFrozen(s: State, operands: seq<nat>, inOrder: bool, source: nat)
    requires Enabled(s, Pack(operands, inOrder)) && AllFrozen(s, source)
    ensures AllFrozen(Step(s, Pack(operands, inOrder)), source)
  {
    assert AllLive(s, operands) by { assert forall k | 0 <= k < |operands| :: Acquired(s, operands[k]); }
    var os := Operands(s, operands);
    PackIsFrozenIffSomeContinuableWas(FRESH, FlagsOf(os));
    if source in SourcesOf(DataOf(os)) {
      var k := HeldByOperand(s, operands, source);
      assert FlagsOf(os)[k].frozen;
    }
    CombinedStaysFrozen(s, operands, Packed(os, inOrder), source);
  }

  function RunFrom(s: State, ops: seq<Op>): Option<State>
    decreases |ops|
  {
    if ops == [] then Some(s) else if Enabled(s, ops[0]) then RunFrom(Step(s, ops[0]), ops[1..]) else None
  }

  /** Some operation of a run ends the freeze. */
  predicate ThawedIn(s: State, ops: seq<Op>, source: nat)
    requires RunFrom(s, ops).Some?
    decreases |ops|
  {
    ops != [] && (Thaws(s, ops[0], source) || ThawedIn(Step(s, ops[0]), ops[1..], source))
  }

  /** After each operation of a run every owner is frozen, and none of them invoked the continuation. */
  ghost predicate Dormant(s: State, ops: seq<Op>, source: nat)
    requires RunFrom(s, ops).Some?
    decreases |ops|
  {
    && AllFrozen(s, source)
    && (ops != [] ==>
          Launched(Step(s, ops[0]), source) == Launched(s, source) && Dormant(Step(s, ops[0]), ops[1..], source))
  }

  /** Freezing disables the invocation over any further program, whatever that does with any other
      continuable, exactly until an operation thaws the continuation. */
  lemma {:induction false} DormantUnlessThawed(s: State, ops: seq<Op>, source: nat)
    requires AllFrozen(s, source) && RunFrom(s, ops).Some?
    ensures Dormant(s, ops, source) <==> !ThawedIn(s, ops, source)
    ensures !ThawedIn(s, ops, source) ==>
              && AllFrozen(RunFrom(s, ops).value, source)
              && Launched(RunFrom(s, ops).value, source) == Launched(s, source)
    decreases |ops|
  {
    if ops != [] {
      FrozenUnlessThawed(s, ops[0], source);
      if !Thaws(s, ops[0], source) {
        DormantUnlessThawed(Step(s, ops[0]), ops[1..], source);
      }
    }
  }

  /** A binary operator over any number of operands, folded from the left. */
  function Folded(op: (Flags, Flags) -> Flags, flags: seq<Flags>): Flags
    requires flags != []
  {
    if |flags| == 1 then flags[0] else op(Folded(op, flags[..|flags| - 1]), flags[|flags| - 1])
  }

  /** A connection by `&&` or `||` is frozen if and only if some operand was, and acquired if all were. */
  lemma {:induction false} ConnectionIsFrozenIffSomeOperandWas(flags: seq<Flags>)
    requires flags != []
    ensures Folded(Merge, flags).frozen <==> exists i :: 0 <= i < |flags| && flags[i].frozen
    ensures Folded(Merge, flags).acquired <==> forall i :: 0 <= i < |flags| ==> flags[i].acquired
  {
    if |flags| > 1 {
      ConnectionIsFrozenIffSomeOperandWas(flags[..|flags| - 1]);
    }
  }

  /** A sequence by `>>` is frozen if and only if its last operand was; so it agrees with the other two
      operators exactly unless the last operand is the one that was not frozen. */
  lemma {:induction false} SequenceIsFrozenIffLastOperandWas(flags: seq<Flags>)
    requires flags != []
    ensures Folded(Shift, flags).frozen == flags[|flags| - 1].frozen
    ensures Folded(Shift, flags).frozen == Folded(Merge, flags).frozen
       <==> flags[|flags| - 1].frozen || forall i :: 0 <= i < |flags| ==> !flags[i].frozen
  {
    ConnectionIsFrozenIffSomeOperandWas(flags);
  }

  lemma {:induction false} PackIsFrozenIffSomeContinuableWas(own: Flags, flags: seq<Flags>)
    ensures Prepared(own, flags).frozen <==> own.frozen || exists i :: 0 <= i < |flags| && flags[i].frozen
    ensures Prepared(own, flags).acquired == own.acquired
    decreases |flags|
  {
    if flags != [] {
      var next := if !own.frozen && flags[0].frozen then Flags(own.acquired, true) else own;
      PackIsFrozenIffSomeContinuableWas(next, flags[1..]);
      if i :| 0 <= i < |flags| && flags[i].frozen {
        assert i > 0 ==> flags[1..][i - 1].frozen;
      }
      if i :| 0 <= i < |flags[1..]| && flags[1..][i].frozen {
        assert flags[i + 1].frozen;
      }
    }
  }
}
