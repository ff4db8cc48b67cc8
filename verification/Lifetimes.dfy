/** What becomes of continuables in the end: what the destruction of the result of each operation invokes and
    starts, and where that may come as a surprise. */
module Lifetimes {
  import opened Results
  import opened Ownership

  // ---------------------------------------------------------------------------------------
  // What the results of operations do
  // ---------------------------------------------------------------------------------------

  lemma RunCons(s: State, op: Op, ops: seq<Op>)
    requires Enabled(s, op)
    ensures RunFrom(s, [op] + ops) == RunFrom(Step(s, op), ops)
  {
    assert ([op] + ops)[1..] == ops;
  }

  lemma RunOfTwo(s: State, a: Op, b: Op)
    requires Enabled(s, a) && Enabled(Step(s, a), b)
    ensures RunFrom(s, [a, b]) == Some(Step(Step(s, a), b))
  {
    assert [a, b] == [a] + ([b] + []);
    RunCons(s, a, [b] + []);
    RunCons(Step(s, a), b, []);
  }

  /** A destructor invokes what is owned and not frozen. */
  lemma DestroyInvokes(s: State, i: nat)
    requires Live(s, i)
    ensures var o := s.objects[i].value;
            Step(s, Destroy(i)).launched == s.launched + if o.flags.acquired && !o.flags.frozen then [o.data] else []
  {
  }

  /** After the operation and the destruction of an object exactly this was invoked. */
  ghost predicate Ends(s: State, op: Op, i: nat, launched: seq<Data>) {
    Enabled(s, op) && RunFrom(s, [op, Destroy(i)]).Some?
    && RunFrom(s, [op, Destroy(i)]).value.launched == s.launched + launched
  }

  lemma EndsIf(s: State, op: Op, i: nat)
    requires Enabled(s, op) && Live(Step(s, op), i)
    ensures var t := Step(s, op);
            var o := t.objects[i].value;
            RunFrom(s, [op, Destroy(i)]).Some?
            && RunFrom(s, [op, Destroy(i)]).value.launched
               == t.launched + if o.flags.acquired && !o.flags.frozen then [o.data] else []
  {
    RunOfTwo(s, op, Destroy(i));
  }

  /** The result of moving a continuable, or of adding a handler, does at its end what the original would
      have done, which then does nothing; so does the target of an assignment. */
  lemma PassedOnAsItIs(s: State, i: nat, j: nat)
    requires Acquired(s, i) && Live(s, j) && i != j
    ensures var n, o := |s.objects|, s.objects[i].value;
            var end := if o.flags.frozen then [] else [o.data];
            && Ends(s, Move(i), n, end) && Ends(s, Move(i), i, [])
            && Ends(s, Then(i), n, end) && Ends(s, Then(i), i, [])
            && Ends(s, MoveAssign(i, j), j, end) && Ends(s, MoveAssign(i, j), i, [])
  {
    EndsIf(s, Move(i), |s.objects|);
    EndsIf(s, Then(i), |s.objects|);
    EndsIf(s, MoveAssign(i, j), j);
    EndsIf(s, Move(i), i);
    EndsIf(s, Then(i), i);
    EndsIf(s, MoveAssign(i, j), i);
  }

  /** A new continuable is invoked at its end; for any one the bit set by `freeze` decides; `done` invokes it
      whatever that is, once. */
  lemma FreezeDecides(s: State, i: nat, source: nat, enabled: bool)
    requires Acquired(s, i)
    ensures Ends(s, Create(source), |s.objects|, [Source(source)])
    ensures Ends(s, Freeze(i, enabled), i, if enabled then [] else [s.objects[i].value.data])
    ensures Ends(s, Done(i), i, [s.objects[i].value.data])
  {
    EndsIf(s, Create(source), |s.objects|);
    EndsIf(s, Freeze(i, enabled), i);
    EndsIf(s, Done(i), i);
  }

  /** The object that an operation appends. */
  predicate Makes(s: State, op: Op, o: Object) {
    Enabled(s, op) && |Step(s, op).objects| == |s.objects| + 1 && Step(s, op).objects[|s.objects|] == Some(o)
  }

  lemma MadeEnds(s: State, op: Op, o: Object)
    requires Makes(s, op, o) && o.flags.acquired && Step(s, op).launched == s.launched
    ensures Ends(s, op, |s.objects|, if o.flags.frozen then [] else [o.data])
  {
    EndsIf(s, op, |s.objects|);
  }

  /** `&&` and `||`: unless an operand was frozen the result is invoked, and that starts what the left
      operand starts and what the right one does, however they end. */
  lemma ConnectionStartsBoth(s: State, l: nat, r: nat, ends: Endings) returns (o: Object)
    requires Enabled(s, Connect(l, r))
    ensures var x, y := s.objects[l].value, s.objects[r].value;
            && Makes(s, Connect(l, r), o)
            && Ends(s, Connect(l, r), |s.objects|, if x.flags.frozen || y.flags.frozen then [] else [o.data])
            && Started(ends, o.data) == Started(ends, x.data) + Started(ends, y.data)
  {
    var x, y := s.objects[l].value, s.objects[r].value;
    o := Connected(x, y);
    TakeAllKeeps(s, [l, r]);
    MadeEnds(s, Connect(l, r), o);
    assert [x.data, y.data][1..] == [y.data] && [y.data][1..] == [];
    assert StartedOf(ends, [y.data], false) == Started(ends, y.data);
  }

  /** `>>`: unless the right operand was frozen the result is invoked, and that starts what the left operand
      starts, and what the right one does exactly if the left one ends with values. */
  lemma SequenceStartsInOrder(s: State, l: nat, r: nat, ends: Endings) returns (o: Object)
    requires Enabled(s, Sequence(l, r))
    ensures var x, y := s.objects[l].value, s.objects[r].value;
            && Makes(s, Sequence(l, r), o)
            && Ends(s, Sequence(l, r), |s.objects|, if y.flags.frozen then [] else [o.data])
            && Started(ends, o.data) == Started(ends, x.data)
                 + (if ends(x.data) == WithValues then Started(ends, y.data) else multiset{})
  {
    o := Sequenced(s.objects[l].value, s.objects[r].value);
    MadeEnds(s, Sequence(l, r), o);
    StartedAfter(ends, s.objects[l].value.data, s.objects[r].value.data);
  }

  function Sum(ms: seq<multiset<nat>>): multiset<nat> {
    if ms == [] then multiset{} else ms[0] + Sum(ms[1..])
  }

  /** What each of some parts starts. */
  function Each(ends: Endings, ds: seq<Data>): seq<multiset<nat>> {
    seq(|ds|, i requires 0 <= i < |ds| => Started(ends, ds[i]))
  }

  lemma {:induction false} StartedTogether(ends: Endings, ds: seq<Data>)
    ensures StartedOf(ends, ds, false) == Sum(Each(ends, ds))
  {
    if ds != [] {
      StartedTogether(ends, ds[1..]);
      assert Each(ends, ds)[1..] == Each(ends, ds[1..]);
    }
  }

  /** The parts up to the first, number `k`, that does not end with values. */
  predicate StopsAt(ends: Endings, ds: seq<Data>, k: nat) {
    && k <= |ds| && (forall i | 0 <= i < k :: ends(ds[i]) == WithValues)
    && (k < |ds| ==> ends(ds[k]) != WithValues)
  }

  function UpTo(ds: seq<Data>, k: nat): seq<Data>
    requires k <= |ds|
  {
    if k < |ds| then ds[..k + 1] else ds
  }

  lemma SumOfEach(ends: Endings, d: Data, ds: seq<Data>)
    ensures Sum(Each(ends, [d] + ds)) == Started(ends, d) + Sum(Each(ends, ds))
  {
    assert Each(ends, [d] + ds)[1..] == Each(ends, ds);
  }

  lemma FirstInOrder(ends: Endings, ds: seq<Data>)
    requires ds != []
    ensures StartedOf(ends, ds, true) ==
              Started(ends, ds[0]) + if ends(ds[0]) == WithValues then StartedOf(ends, ds[1..], true) else multiset{}
  {
  }

  lemma StopsLater(ends: Endings, ds: seq<Data>, k: nat)
    requires StopsAt(ends, ds, k) && 0 < k
    ensures StopsAt(ends, ds[1..], k - 1) && UpTo(ds, k) == [ds[0]] + UpTo(ds[1..], k - 1)
    ensures ends(ds[0]) == WithValues
  {
    assert forall i | 0 <= i < |ds[1..]| :: ds[1..][i] == ds[i + 1];
  }

  lemma {:induction false} StartedInOrder(ends: Endings, ds: seq<Data>, k: nat)
    requires StopsAt(ends, ds, k)
    ensures StartedOf(ends, ds, true) == Sum(Each(ends, UpTo(ds, k)))
    decreases |ds|
  {
    if ds != [] {
      FirstInOrder(ends, ds);
      if k == 0 {
        assert UpTo(ds, k) == [ds[0]] + [];
        SumOfEach(ends, ds[0], []);
      } else {
        StopsLater(ends, ds, k);
        SumOfEach(ends, ds[0], UpTo(ds[1..], k - 1));
        StartedInOrder(ends, ds[1..], k - 1);
      }
    }
  }

  /** `when_all`, `when_any` and `when_seq`: unless an operand was frozen the result is invoked. The first two
      start what all operands start; `when_seq` starts what the operands start up to the first, number `k`,
      that does not end with values. */
  lemma PackStarts(s: State, operands: seq<nat>, inOrder: bool, k: nat, ends: Endings) returns (o: Object)
    requires Enabled(s, Pack(operands, inOrder)) && AllLive(s, operands)
    requires StopsAt(ends, DataOf(Operands(s, operands)), k)
    ensures var os, ds := Operands(s, operands), DataOf(Operands(s, operands));
            && Makes(s, Pack(operands, inOrder), o)
            && Ends(s, Pack(operands, inOrder), |s.objects|,
                    if exists i :: 0 <= i < |os| && os[i].flags.frozen then [] else [o.data])
            && Started(ends, o.data) == Sum(Each(ends, if inOrder then UpTo(ds, k) else ds))
  {
    var os := Operands(s, operands);
    o := Packed(os, inOrder);
    TakeAllKeeps(s, operands);
    PackIsFrozenIffSomeContinuableWas(FRESH, FlagsOf(os));
    MadeEnds(s, Pack(operands, inOrder), o);
    SomeFrozen(os);
    if inOrder {
      StartedInOrder(ends, DataOf(os), k);
    } else {
      StartedTogether(ends, DataOf(os));
    }
  }

  lemma SomeFrozen(os: seq<Object>)
    ensures (exists i :: 0 <= i < |os| && os[i].flags.frozen) <==> exists i :: 0 <= i < |os| && FlagsOf(os)[i].frozen
  {
    if i :| 0 <= i < |os| && os[i].flags.frozen {
      assert FlagsOf(os)[i].frozen;
    }
  }

  /** What was invoked or given up once stays so. */
  lemma StepNeverForgets(s: State, op: Op, source: nat)
    requires Enabled(s, op)
    ensures Launched(Step(s, op), source) >= Launched(s, source)
    ensures Step(s, op).abandoned[source] >= s.abandoned[source]
  {
    if op.Done? || op.Destroy? {
      SourcesSnoc(s.launched, s.objects[op.at].value.data);
    } else if op.Pack? {
      TakeAllKeeps(s, op.operands);
    } else if op.Connect? {
      TakeAllKeeps(s, [op.left, op.right]);
    }
  }

  lemma {:induction false} NobodyInvokes(s: State, ops: seq<Op>, source: nat)
    requires Owners(s.objects, source) == 0 && RunFrom(s, ops).Some? && Create(source) !in ops
    ensures Launched(RunFrom(s, ops).value, source) == Launched(s, source)
    decreases |ops|
  {
    if ops != [] {
      assert ops[0] in ops;
      StepConserves(s, ops[0], source);
      StepNeverForgets(s, ops[0], source);
      NobodyInvokes(Step(s, ops[0]), ops[1..], source);
    }
  }

  /** Assigning to the owner of a continuation gives that up although nothing need ever have been
      frozen: no later program invokes it. */
  lemma AssignmentForgetsItsTarget(s: State, i: nat, j: nat, ops: seq<Op>, source: nat)
    requires Enabled(s, MoveAssign(i, j)) && OwnedBy(s, j, source) && Owners(s.objects, source) == 1
    requires RunFrom(Step(s, MoveAssign(i, j)), ops).Some? && Create(source) !in ops
    ensures Launched(RunFrom(Step(s, MoveAssign(i, j)), ops).value, source) == Launched(s, source)
  {
    var t := Step(s, MoveAssign(i, j));
    AssignConserves(s, i, j, source);
    assert t.abandoned[source] == s.abandoned[source] + Owns(s.objects[j])[source];
    NobodyInvokes(t, ops, source);
  }

  /** Converting a continuable to another data type thaws it: frozen or not, its data is invoked by the
      destructor of the new object. */
  lemma ConversionThaws(s: State, i: nat)
    requires Acquired(s, i)
    ensures var r := RunFrom(s, [Convert(i), Destroy(|s.objects|)]);
            r.Some? && r.value.launched == s.launched + [s.objects[i].value.data]
  {
    RunOfTwo(s, Convert(i), Destroy(|s.objects|));
  }

  /** A continuable given to `then` or `fail` of an unfrozen one is thawed: frozen or not, the destructor
      of the result invokes both, and that starts the argument when the left one has values, or fails. */
  lemma ArgumentThaws(s: State, l: nat, r: nat, onFailure: bool, ends: Endings)
    requires Enabled(s, Follow(l, r, onFailure)) && !s.objects[l].value.flags.frozen
    ensures var x, y := s.objects[l].value, s.objects[r].value;
            var both := Followed(x, y, onFailure).data;
            var run := RunFrom(s, [Follow(l, r, onFailure), Destroy(|s.objects|)]);
            && run.Some? && run.value.launched == s.launched + [both]
            && Started(ends, both) == Started(ends, x.data)
                 + if ends(x.data) == (if onFailure then WithException else WithValues) then Started(ends, y.data)
                   else multiset{}
  {
    RunOfTwo(s, Follow(l, r, onFailure), Destroy(|s.objects|));
    StartedAfter(ends, s.objects[l].value.data, s.objects[r].value.data);
  }

  lemma StartedAfter(ends: Endings, d: Data, e: Data)
    ensures Started(ends, InOrder([d, e])) ==
              Started(ends, d) + if ends(d).WithValues? then Started(ends, e) else multiset{}
  {
    assert [d, e][1..] == [e] && [e][1..] == [];
    assert StartedOf(ends, [e], true) == Started(ends, e);
  }

  /** A pack with no operands. */
  lemma EmptyPack(s: State)
    ensures Enabled(s, Pack([], false)) && Step(s, Pack([], false)) == Append(s, Object(Together([]), FRESH))
  {
    assert DataOf([]) == [] && FlagsOf([]) == [] && Operands(s, []) == [];
  }

  /** `when_all(std::make_tuple(1, c))`: the mapping does not reach `c`, so the connection has no operand
      and `c` is moved into it unfrozen. Even if the connection itself is frozen and never invoked, the
      destructor of `c` starts it, with nobody to take the result. */
  lemma MissedContinuableIsInvoked(s: State, c: nat)
    requires Acquired(s, c) && !s.objects[c].value.flags.frozen
    ensures var n := |s.objects|;
            var r := RunFrom(s, [Move(c), Pack([], false)] + [Freeze(n + 1, true)] + [Destroy(n + 1), Destroy(n)]);
            r.Some? && r.value.launched == s.launched + [s.objects[c].value.data]
  {
    var n := |s.objects|;
    var moved := Step(s, Move(c));
    EmptyPack(moved);
    var packed := Step(moved, Pack([], false));
    var frozen := Step(packed, Freeze(n + 1, true));
    var ops: seq<Op> := [Destroy(n + 1), Destroy(n)];
    assert frozen.objects[n] == Some(s.objects[c].value);
    RunOfTwo(frozen, Destroy(n + 1), Destroy(n));
    RunCons(packed, Freeze(n + 1, true), ops);
    RunCons(moved, Pack([], false), [Freeze(n + 1, true)] + ops);
    RunCons(s, Move(c), [Pack([], false)] + ([Freeze(n + 1, true)] + ops));
    assert [Move(c)] + ([Pack([], false)] + ([Freeze(n + 1, true)] + ops))
        == [Move(c), Pack([], false)] + [Freeze(n + 1, true)] + ops;
  }
}
