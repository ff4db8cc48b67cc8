/** Continuable objects on the heap: the class with its data and its ownership object, and a scope of
    such objects that executes programs. Each operation does to the objects what the program step of
    `Ownership` says, so what is proved there about every program holds for these objects. */
module Continuables {
  import opened Results
  import opened Model = Ownership

  /** The ownership object. Moving from it takes the acquired bit away and leaves the frozen bit. */
  class Ownership {
    var acquired: bool
    var frozen: bool

    function Get(): Flags
      reads this
    {
      Flags(acquired, frozen)
    }

    constructor ()
      ensures Get() == FRESH
    {
      acquired, frozen := true, false;
    }

    constructor Copied(right: Ownership)
      ensures Get() == right.Get()
    {
      acquired, frozen := right.acquired, right.frozen;
    }

    constructor Moved(right: Ownership)
      modifies right
      ensures Get() == old(right.Get()) && right.Get() == Flags(false, old(right.frozen))
    {
      acquired, frozen := right.acquired, right.frozen;
      new;
      var _ := right.Consume();
    }

    constructor Merged(left: Ownership, right: Ownership)
      ensures Get() == Merge(left.Get(), right.Get())
    {
      acquired, frozen := left.acquired && right.acquired, left.frozen || right.frozen;
    }

    method Consume() returns (was: bool)
      modifies this
      ensures was == old(acquired) && Get() == Flags(false, old(frozen))
    {
      was := acquired;
      if acquired {
        Release();
      }
    }

    method Release()
      requires acquired
      modifies this
      ensures Get() == Flags(false, old(frozen))
    {
      acquired := false;
    }

    method Freeze(enabled: bool)
      requires acquired
      modifies this
      ensures Get() == Flags(true, enabled)
    {
      frozen := enabled;
    }

    /** Move assignment; what this object owned before is forgotten. */
    method MoveFrom(right: Ownership)
      requires right != this
      modifies this, right
      ensures Get() == old(right.Get()) && right.Get() == Flags(false, old(right.frozen))
    {
      acquired := right.Consume();
      frozen := right.frozen;
    }
  }

  /** A continuable: its data and an ownership of its own. */
  class ContinuableBase {
    var data: Data
    const ownership: Ownership

    function Get(): Object
      reads this, ownership
    {
      Object(data, ownership.Get())
    }

    constructor (data: Data)
      ensures Get() == Object(data, FRESH) && fresh(ownership)
    {
      this.data := data;
      ownership := new Ownership();
    }

    /** `create_from_raw`: the ownership is passed by value. */
    constructor Raw(data: Data, ownership: Ownership)
      ensures Get() == Object(data, ownership.Get()) && fresh(this.ownership)
    {
      this.data := data;
      this.ownership := new Ownership.Copied(ownership);
    }

    constructor Moved(right: ContinuableBase)
      modifies right.ownership
      ensures Get() == old(right.Get()) && right.Get() == Released(old(right.Get())) && fresh(ownership)
    {
      data := right.data;
      ownership := new Ownership.Moved(right.ownership);
    }

    /** Move assignment. */
    method MoveFrom(right: ContinuableBase)
      requires right != this && right.ownership != ownership
      modifies this, ownership, right.ownership
      ensures Get() == old(right.Get()) && right.Get() == Released(old(right.Get()))
    {
      data := right.data;
      ownership.MoveFrom(right.ownership);
    }

    /** Gives up the right to invoke the data, and returns the data. */
    method Consume() returns (d: Data)
      requires ownership.acquired
      modifies ownership
      ensures d == data && Get() == Released(old(Get()))
    {
      ownership.Release();
      d := data;
    }

    /** The converting constructor: only the data is passed on. */
    method Convert() returns (r: ContinuableBase)
      requires ownership.acquired
      modifies ownership
      ensures r.Get() == Converted(old(Get())) && Get() == Released(old(Get())) && fresh(r) && fresh(r.ownership)
    {
      var d := Consume();
      r := new ContinuableBase(d);
    }

    /** `chain_continuation`: a copy of the ownership is made before the data is consumed. */
    method Then() returns (r: ContinuableBase)
      requires ownership.acquired
      modifies ownership
      ensures r.Get() == old(Get()) && Get() == Released(old(Get())) && fresh(r) && fresh(r.ownership)
    {
      var copy := new Ownership.Copied(ownership);
      var d := Consume();
      r := new ContinuableBase.Raw(d, copy);
    }

    /** `then` and `fail` with a continuable: it is frozen and moved into the handler, and the ownership of
        the result is a copy of the left one's. */
    method Follow(right: ContinuableBase, onFailure: bool) returns (r: ContinuableBase)
      requires right != this && right.ownership != ownership
      requires ownership.acquired && right.ownership.acquired
      modifies ownership, right.ownership
      ensures r.Get() == Followed(old(Get()), old(right.Get()), onFailure) && fresh(r) && fresh(r.ownership)
      ensures Get() == Released(old(Get())) && right.Get() == Released(Frozen(old(right.Get()), true))
    {
      right.ownership.Freeze(true);
      var held := new ContinuableBase.Moved(right);
      var chained := Then();
      var d := if onFailure then OnFailure(chained.data, held.data) else InOrder([chained.data, held.data]);
      r := new ContinuableBase.Raw(d, chained.ownership);
    }

    /** `connect`, the strategy of `&&` or `||`. */
    method Connect(right: ContinuableBase) returns (r: ContinuableBase)
      requires right != this && right.ownership != ownership
      requires ownership.acquired && right.ownership.acquired
      modifies ownership, right.ownership
      ensures r.Get() == Connected(old(Get()), old(right.Get())) && fresh(r) && fresh(r.ownership)
      ensures Get() == Released(Frozen(old(Get()), true)) && right.Get() == Released(Frozen(old(right.Get()), true))
    {
      var merged := new Ownership.Merged(ownership, right.ownership);
      ownership.Freeze(true);
      right.ownership.Freeze(true);
      var x := Consume();
      var y := right.Consume();
      r := new ContinuableBase.Raw(Together([x, y]), merged);
    }

    /** `sequential_connect`: the right continuable is moved into the handler of the left one. */
    method Sequence(right: ContinuableBase) returns (r: ContinuableBase)
      requires right != this && right.ownership != ownership
      requires ownership.acquired && right.ownership.acquired
      modifies ownership, right.ownership
      ensures r.Get() == Sequenced(old(Get()), old(right.Get())) && fresh(r) && fresh(r.ownership)
      ensures Get() == Released(Frozen(old(Get()), old(right.ownership.frozen)))
      ensures right.Get() == Released(Frozen(old(right.Get()), true))
    {
      ownership.Freeze(right.ownership.frozen);
      right.ownership.Freeze(true);
      var held := new ContinuableBase.Moved(right);
      var chained := Then();
      r := new ContinuableBase.Raw(InOrder([chained.data, held.data]), chained.ownership);
    }

    /** Invokes the data. */
    method Done() returns (launched: Data)
      requires ownership.acquired
      modifies ownership
      ensures launched == data && Get() == Released(old(Get()))
    {
      launched := Consume();
    }

    /** The destructor, which invokes the data of an owner that is not frozen. */
    method Destruct() returns (launched: Option<Data>)
      modifies ownership
      ensures launched == if old(ownership.acquired) && !old(ownership.frozen) then Some(data) else None
    {
      launched := None;
      if ownership.acquired && !ownership.frozen {
        var d := Done();
        launched := Some(d);
      }
      assert !ownership.acquired || ownership.frozen;
    }
  }

  /** The objects of a program and the data they invoked; `model` is the state of the program, in which
      destroyed objects are None. */
  class Scope {
    var objects: seq<ContinuableBase>
    var launched: seq<Data>
    ghost var model: State
    ghost var footprint: set<object>

    /** No two objects share anything. */
    ghost predicate Apart()
      reads this
    {
      && this !in footprint
      && (forall i | 0 <= i < |objects| :: objects[i] in footprint && objects[i].ownership in footprint)
      && forall i, j | 0 <= i < j < |objects| ::
           objects[i] != objects[j] && objects[i].ownership != objects[j].ownership
    }

    ghost predicate Valid()
      reads this, footprint
    {
      && Apart() && launched == model.launched && |objects| == |model.objects|
      && forall i | 0 <= i < |objects| && model.objects[i].Some? ::
           model.objects[i].value == objects[i].Get()
    }

    constructor ()
      ensures Valid() && model == Init()
    {
      objects, launched := [], [];
      model, footprint := Init(), {};
    }

    method Add(c: ContinuableBase)
      requires Valid() && c !in footprint && c.ownership !in footprint && c.ownership as object != this
      modifies this
      ensures Valid() && model == Append(old(model), c.Get())
      ensures footprint == old(footprint) + {c, c.ownership}
    {
      objects, footprint := objects + [c], footprint + {c, c.ownership};
      model := Append(model, c.Get());
    }

    method Start(source: nat)
      requires Valid()
      modifies this
      ensures Valid() && model == Step(old(model), Create(source)) && fresh(footprint - old(footprint))
    {
      var r := new ContinuableBase(Source(source));
      Add(r);
    }

    method Move(i: nat)
      requires Valid() && Enabled(model, Op.Move(i))
      modifies this, footprint
      ensures Valid() && model == Step(old(model), Op.Move(i)) && fresh(footprint - old(footprint))
    {
      var moved := new ContinuableBase.Moved(objects[i]);
      model := Set(model, i, objects[i].Get());
      Add(moved);
    }

    method Convert(i: nat)
      requires Valid() && Enabled(model, Op.Convert(i))
      modifies this, footprint
      ensures Valid() && model == Step(old(model), Op.Convert(i)) && fresh(footprint - old(footprint))
    {
      var converted := objects[i].Convert();
      model := Set(model, i, objects[i].Get());
      Add(converted);
    }

    method Then(i: nat)
      requires Valid() && Enabled(model, Op.Then(i))
      modifies this, footprint
      ensures Valid() && model == Step(old(model), Op.Then(i)) && fresh(footprint - old(footprint))
    {
      var chained := objects[i].Then();
      model := Set(model, i, objects[i].Get());
      Add(chained);
    }

    method Follow(l: nat, r: nat, onFailure: bool)
      requires Valid() && Enabled(model, Op.Follow(l, r, onFailure))
      modifies this, footprint
      ensures Valid() && model == Step(old(model), Op.Follow(l, r, onFailure)) && fresh(footprint - old(footprint))
    {
      var left, right := objects[l], objects[r];
      var followed := left.Follow(right, onFailure);
      Replace(l, r);
      Add(followed);
    }

    method Connect(l: nat, r: nat)
      requires Valid() && Enabled(model, Op.Connect(l, r))
      modifies this, footprint
      ensures Valid() && model == Step(old(model), Op.Connect(l, r)) && fresh(footprint - old(footprint))
    {
      var left, right := objects[l], objects[r];
      var connected := left.Connect(right);
      TakesTwo(model, l, r);
      Replace(l, r);
      Add(connected);
    }

    method Sequence(l: nat, r: nat)
      requires Valid() && Enabled(model, Op.Sequence(l, r))
      modifies this, footprint
      ensures Valid() && model == Step(old(model), Op.Sequence(l, r)) && fresh(footprint - old(footprint))
    {
      var left, right := objects[l], objects[r];
      var sequenced := left.Sequence(right);
      Replace(l, r);
      Add(sequenced);
    }

    /** All objects are in the state that is known of them, apart from two. */
    ghost predicate ValidBut(l: nat, r: nat)
      reads this, footprint
    {
      && Apart() && launched == model.launched && |objects| == |model.objects|
      && l < |objects| && r < |objects|
      && forall i | 0 <= i < |objects| && model.objects[i].Some? && i != l && i != r ::
           model.objects[i].value == objects[i].Get()
    }

    ghost method Replace(l: nat, r: nat)
      requires ValidBut(l, r) && l != r
      modifies this`model
      ensures Valid()
      ensures model == Set(Set(old(model), l, objects[l].Get()), r, objects[r].Get())
    {
      model := Set(Set(model, l, objects[l].Get()), r, objects[r].Get());
    }

    /** `prepare_continuables` for one operand: a frozen state is taken over, the operand is frozen and
        stored for later. */
    method Prepare(i: nat, own: Ownership) returns (part: Data)
      requires Valid() && Acquired(model, i) && own !in footprint && own as object != this && own.acquired
      modifies this`model, footprint, own
      ensures Valid()
      ensures var o := old(model).objects[i].value;
              && part == o.data && model == Set(old(model), i, Released(Frozen(o, true)))
              && own.Get() == Prepared(old(own.Get()), [o.flags])
    {
      var c := objects[i];
      if !own.frozen && c.ownership.frozen {
        own.Freeze(true);
      }
      c.ownership.Freeze(true);
      part := c.Consume();
      model := Set(model, i, c.Get());
    }

    method PrepareAll(operands: seq<nat>) returns (own: Ownership, parts: seq<Data>)
      requires Valid() && Distinct(operands) && AllLive(model, operands)
      requires forall k | 0 <= k < |operands| :: Acquired(model, operands[k])
      modifies this`model, footprint
      ensures Valid() && objects == old(objects) && launched == old(launched) && footprint == old(footprint)
      ensures fresh(own) && model == TakeAll(old(model), operands)
      ensures var os := Operands(old(model), operands);
              parts == DataOf(os) && own.Get() == Prepared(FRESH, FlagsOf(os))
    {
      ghost var s := model;
      own := new Ownership();
      parts := [];
      for k := 0 to |operands|
        invariant Valid() && own !in footprint && own.acquired
        invariant AllLive(s, operands[..k]) && model == TakeAll(s, operands[..k])
        invariant parts == DataOf(Operands(s, operands[..k]))
        invariant own.Get() == Prepared(FRESH, FlagsOf(Operands(s, operands[..k])))
      {
        TakesOneMore(s, operands, k);
        var part := Prepare(operands[k], own);
        parts := parts + [part];
      }
      assert operands[..|operands|] == operands;
    }

    method Pack(operands: seq<nat>, inOrder: bool)
      requires Valid() && Enabled(model, Op.Pack(operands, inOrder))
      modifies this, footprint
      ensures Valid() && model == Step(old(model), Op.Pack(operands, inOrder)) && fresh(footprint - old(footprint))
    {
      assert forall k | 0 <= k < |operands| :: Acquired(model, operands[k]);
      var own, parts := PrepareAll(operands);
      var r := new ContinuableBase.Raw(if inOrder then InOrder(parts) else Together(parts), own);
      Add(r);
    }

    method Assign(i: nat, j: nat)
      requires Valid() && Enabled(model, MoveAssign(i, j))
      modifies this, footprint
      ensures Valid() && model == Step(old(model), MoveAssign(i, j)) && footprint == old(footprint)
    {
      ghost var lost := Owns(model.objects[j]);
      objects[j].MoveFrom(objects[i]);
      model := Set(Set(model, i, objects[i].Get()), j, objects[j].Get()).(abandoned := model.abandoned + lost);
    }

    /** `done` and the destructor. */
    method End(op: Op)
      requires Valid() && Enabled(model, op) && (op.Done? || op.Destroy?)
      modifies this, footprint
      ensures Valid() && model == Step(old(model), op) && footprint == old(footprint)
    {
      ghost var s := model;
      if op.Done? {
        var d := objects[op.at].Done();
        launched := launched + [d];
      } else {
        var d := objects[op.at].Destruct();
        if d.Some? {
          launched := launched + [d.value];
        }
      }
      model := Step(s, op);
    }

    /** Any operation of a program does to the objects what its program step says. */
    method Execute(op: Op)
      requires Valid() && Enabled(model, op)
      modifies this, footprint
      ensures Valid() && model == Step(old(model), op) && fresh(footprint - old(footprint))
    {
      match op
      case Create(source) => Start(source);
      case MoveAssign(i, j) => Assign(i, j);
      case Connect(l, r) => Connect(l, r);
      case Sequence(l, r) => Sequence(l, r);
      case Pack(operands, inOrder) => Pack(operands, inOrder);
      case Freeze(i, enabled) =>
        objects[i].ownership.Freeze(enabled);
        model := Set(model, i, objects[i].Get());
      case Done(_) => End(op);
      case Destroy(_) => End(op);
      case Move(i) => Move(i);
      case Convert(i) => Convert(i);
      case Then(i) => Then(i);
      case Follow(l, r, onFailure) => Follow(l, r, onFailure);
    }

    /** A whole program. */
    method ExecuteAll(ops: seq<Op>)
      requires Valid() && model == Init() && Run(ops).Some?
      modifies this, footprint
      ensures Valid() && model == Run(ops).value
    {
      for k := 0 to |ops|
        invariant Valid() && Run(ops[..k]) == Some(model)
        invariant fresh(footprint - old(footprint))
      {
        RunsPrefix(ops, k);
        Execute(ops[k]);
      }
      assert ops[..|ops|] == ops;
    }
  }

  lemma TakesTwo(s: State, l: nat, r: nat)
    requires Enabled(s, Connect(l, r))
    ensures TakeAll(s, [l, r]) ==
      Set(Set(s, l, Released(Frozen(s.objects[l].value, true))), r, Released(Frozen(s.objects[r].value, true)))
  {
    var t := TakeFirst(s, [l, r]);
    assert [l, r][1..] == [r] && [r][1..] == [];
    assert TakeAll(s, [l, r]) == TakeAll(t, [r]) == TakeAll(TakeFirst(t, [r]), []);
  }

  lemma {:induction false} TakeAllSnoc(s: State, operands: seq<nat>, i: nat)
    requires AllLive(s, operands) && Live(s, i) && i !in operands
    ensures AllLive(s, operands + [i])
    ensures |TakeAll(s, operands).objects| == |s.objects| && TakeAll(s, operands).objects[i] == s.objects[i]
    ensures TakeAll(s, operands + [i]) == Set(TakeAll(s, operands), i, Released(Frozen(s.objects[i].value, true)))
    decreases |operands|
  {
    var all := operands + [i];
    assert forall k | 0 <= k < |operands| :: Live(s, operands[k]) && all[k] == operands[k];
    if operands == [] {
      assert all == [i] && all[1..] == [];
    } else {
      assert all[1..] == operands[1..] + [i] && all[0] == operands[0] && operands[0] in operands;
      TakeAllSnoc(TakeFirst(s, operands), operands[1..], i);
    }
  }

  lemma {:induction false} PreparedSnoc(own: Flags, flags: seq<Flags>, f: Flags)
    ensures Prepared(own, flags + [f]) == Prepared(Prepared(own, flags), [f])
    decreases |flags|
  {
    if flags == [] {
      assert flags + [f] == [f];
    } else {
      assert (flags + [f])[1..] == flags[1..] + [f] && (flags + [f])[0] == flags[0];
      PreparedSnoc(if !own.frozen && flags[0].frozen then Flags(own.acquired, true) else own, flags[1..], f);
    }
  }

  lemma TakesOneMore(s: State, operands: seq<nat>, k: nat)
    requires Distinct(operands) && AllLive(s, operands) && k < |operands|
    ensures AllLive(s, operands[..k]) && AllLive(s, operands[..k + 1])
    ensures var t, i := TakeAll(s, operands[..k]), operands[k];
            && Live(s, i) && Live(t, i) && t.objects[i] == s.objects[i]
            && TakeAll(s, operands[..k + 1]) == Set(t, i, Released(Frozen(s.objects[i].value, true)))
    ensures var os, o := Operands(s, operands[..k]), s.objects[operands[k]].value;
            && Operands(s, operands[..k + 1]) == os + [o]
            && DataOf(os + [o]) == DataOf(os) + [o.data]
            && Prepared(FRESH, FlagsOf(os + [o])) == Prepared(Prepared(FRESH, FlagsOf(os)), [o.flags])
  {
    var before, i := operands[..k], operands[k];
    assert operands[..k + 1] == before + [i];
    assert forall j | 0 <= j < k :: Live(s, operands[j]) && before[j] == operands[j];
    assert Live(s, i);
    TakeAllSnoc(s, before, i);
    TakeAllKeeps(s, before);
    var os, o := Operands(s, before), s.objects[i].value;
    assert FlagsOf(os + [o]) == FlagsOf(os) + [o.flags];
    PreparedSnoc(FRESH, FlagsOf(os), o.flags);
  }

  lemma {:induction false} RunsPrefix(ops: seq<Op>, k: nat)
    requires Run(ops).Some? && k < |ops|
    ensures Run(ops[..k]).Some? && Enabled(Run(ops[..k]).value, ops[k])
    ensures Run(ops[..k + 1]) == Some(Step(Run(ops[..k]).value, ops[k]))
    decreases |ops|
  {
    var init := ops[..|ops| - 1];
    if k < |ops| - 1 {
      assert init[..k] == ops[..k] && init[..k + 1] == ops[..k + 1];
      RunsPrefix(init, k);
    } else {
      assert ops[..k + 1] == ops;
    }
  }
}
