/** What a connection delivers. A pack is boxed, its boxes are filled and the boxed pack is unboxed, by
    two mappings; here stands what comes out of it, value by value, in terms of the pack alone. */
module Unboxing {
  import opened Results
  import opened Remapping
  import Async = AsyncTraversal

  // ---------------------------------------------------------------------------------------
  // What a pack settles to
  // ---------------------------------------------------------------------------------------

  /** The types that a value of a type contributes to the tuple around it. */
  function SettledTypes(t: Ty): seq<Ty> {
    match t
    case ContTy(s) => seq(|s|, j requires 0 <= j < |s| => PlainTy(s[j]))
    case TupleTy(types) =>
      if !SomeOnlyConts(types) then [t]
      else
        var ts := AllSettledTypes(types);
        if ts == [] then [] else [TupleTy(ts)]
    case ContainerTy(e) =>
      if !OnlyConts(e) then [t]
      else if SettledTypes(e) == [] then []
      else [ContainerTy(if |SettledTypes(e)| == 1 then SettledTypes(e)[0] else TupleTy(SettledTypes(e)))]
    case _ => [t]
  }

  function AllSettledTypes(types: seq<Ty>): seq<Ty> {
    Concat(seq(|types|, i requires 0 <= i < |types| => SettledTypes(types[i])))
  }

  /** What a value contributes to the tuple around it: a plain value itself, a continuable its results,
      however many. A tuple or container around continuables holds what these leave, and is gone if that
      is nothing; in a container the results of one continuable are one element. A tuple or container
      with a closed gate stays as it is. */
  function Settled(result: (nat, nat) -> int, v: Val): seq<Val> {
    match v
    case Cont(id, s) => seq(|s|, j requires 0 <= j < |s| => Plain(s[j], result(id, j)))
    case Tuple(items) =>
      if !SomeOnlyConts(TypesOf(items)) then [v]
      else
        var vs := AllSettled(result, items);
        if vs == [] then [] else [Tuple(vs)]
    case Container(e, elements) =>
      if !OnlyConts(e) then [v]
      else if SettledTypes(e) == [] then []
      else
        [Container(if |SettledTypes(e)| == 1 then SettledTypes(e)[0] else TupleTy(SettledTypes(e)),
                   seq(|elements|, i requires 0 <= i < |elements| => AsOne(Settled(result, elements[i]))))]
    case _ => [v]
  }

  function AllSettled(result: (nat, nat) -> int, vs: seq<Val>): seq<Val> {
    Concat(seq(|vs|, i requires 0 <= i < |vs| => Settled(result, vs[i])))
  }

  function AsOne(vs: seq<Val>): Val { if |vs| == 1 then vs[0] else Tuple(vs) }

  /** The objects that a mapping leaves in place of an element. */
  function Left<T>(m: Mapped<T>): seq<T> {
    match m case One(x) => [x] case Spread(xs) => xs
  }

  /** A single object is never spread. */
  ghost predicate Canonical<T>(m: Mapped<T>) { m.Spread? ==> |m.spread| != 1 }

  lemma {:induction false} FlatIsConcat<T>(ms: seq<Mapped<T>>, packs: seq<seq<T>>)
    requires |ms| == |packs| && forall i | 0 <= i < |ms| :: Left(ms[i]) == packs[i]
    ensures Flat(ms) == Concat(packs)
  {
    if ms != [] {
      FlatIsConcat(ms[1..], packs[1..]);
    }
  }

  lemma {:induction false} NothingToUnpack(m: Mapper, t: Ty)
    requires m.Unpacker? && Unboxed(t)
    ensures MapType(m, t) == One(t)
  {
    match t
    case TupleTy(types) => EffectiveAgrees(m, types);
    case ContainerTy(e) => UnboxedIsNotUnpacked(m, e);
    case _ =>
  }

  lemma NothingToUnpackValue(m: Mapper, v: Val)
    requires m.Unpacker? && Unboxed(TypeOf(v))
    ensures MapValue(m, v) == One(v)
  {
    match v
    case Tuple(items) => EffectiveAgrees(m, TypesOf(items));
    case Container(e, _) => UnboxedIsNotUnpacked(m, e);
    case _ =>
  }

  lemma {:induction false} UnpackedTypesAreSettled(m: Mapper, t: Ty)
    requires m.Unpacker? && Unboxed(t)
    ensures Left(MapType(m, PackedType(t))) == SettledTypes(t) && Canonical(MapType(m, PackedType(t)))
    decreases t
  {
    PackingNeverSpreads(t);
    GateOf(t);
    match t
    case TupleTy(types) =>
      EffectiveAgrees(m, types);
      if Effective(Packer, types) {
        forall i | 0 <= i < |types| ensures Left(MapType(m, PackedTypes(types)[i])) == SettledTypes(types[i]) {
          UnpackedTypesAreSettled(m, types[i]);
        }
        FlatIsConcat(MapTypes(m, PackedTypes(types)),
                     seq(|types|, i requires 0 <= i < |types| => SettledTypes(types[i])));
      } else {
        NothingToUnpack(m, t);
      }
    case ContainerTy(e) =>
      GatesAgree(m, e);
      if Strict(Packer, e) {
        UnpackedTypesAreSettled(m, e);
      } else {
        NothingToUnpack(m, t);
      }
    case _ =>
  }

  /** Boxing a value, filling the boxes and unboxing it: the two mappings leave what it settles to. */
  lemma {:induction false} UnboxedIsSettled(result: (nat, nat) -> int, v: Val)
    requires WellTyped(v) && Unboxed(TypeOf(v))
    ensures Left(MapValue(Unpacker(result), Packed(v))) == Settled(result, v)
    ensures Canonical(MapValue(Unpacker(result), Packed(v)))
    decreases v
  {
    var m := Unpacker(result);
    PackingNeverSpreadsValues(v);
    GateOf(TypeOf(v));
    match v
    case Tuple(items) =>
      EffectiveAgrees(m, TypesOf(items));
      if Effective(Packer, TypesOf(items)) {
        var packed := PackedAll(items);
        forall i | 0 <= i < |items| ensures Left(MapValue(m, packed[i])) == Settled(result, items[i]) {
          assert TypesOf(items)[i] == TypeOf(items[i]);
          UnboxedIsSettled(result, items[i]);
        }
        FlatIsConcat(MapValues(m, packed), seq(|items|, i requires 0 <= i < |items| => Settled(result, items[i])));
        PackedTypesAgree(items);
      } else {
        NothingToUnpackValue(m, v);
      }
    case Container(e, elements) =>
      GatesAgree(m, e);
      if Strict(Packer, e) {
        UnboxedContainer(result, v);
      } else {
        NothingToUnpackValue(m, v);
      }
    case Cont(id, s) =>
      assert Left(MapValue(m, Packed(v))) == ResultsOf(m, id, s);
    case _ =>
  }

  lemma {:induction false} UnboxedContainer(result: (nat, nat) -> int, v: Val)
    requires v.Container? && Strict(Packer, v.element) && WellTyped(v) && Unboxed(TypeOf(v))
    ensures Left(MapValue(Unpacker(result), Packed(v))) == Settled(result, v)
    ensures Canonical(MapValue(Unpacker(result), Packed(v)))
    decreases v, 0
  {
    var m, e, elements := Unpacker(result), v.element, v.elements;
    var packed := PackedAll(elements);
    PackingNeverSpreadsValues(v);
    StrictIffOnlyConts(e);
    GatesAgree(m, e);
    UnpackedTypesAreSettled(m, e);
    forall i | 0 <= i < |elements|
      ensures StoredItem(MapValue(m, packed[i])) == AsOne(Settled(result, elements[i]))
    {
      UnboxedIsSettled(result, elements[i]);
    }
    assert StoredItems(MapValues(m, packed))
        == seq(|elements|, i requires 0 <= i < |elements| => AsOne(Settled(result, elements[i])));
  }

  /** What a pack that settles to a tuple hands on: its elements, or none if nothing is left of it. */
  function ItemsOf(vs: seq<Val>): seq<Val> {
    if |vs| == 1 && vs[0].Tuple? then vs[0].items else []
  }

  /** A connection of any pack: each continuable that is visited is boxed once, each box is dispatched by
      either traversal and unboxed exactly once and in the same order, and the callback gets what the pack
      settles to. */
  lemma ConnectionDeliversSettledPack(result: (nat, nat) -> int, v: Val)
    requires v.Tuple? && WellTyped(v) && Unboxed(TypeOf(v))
    ensures Packed(v).Tuple?
    ensures Visited(Packer, v) == Boxes(Packed(v)) == Visited(Unpacker(result), Packed(v))
         == Async.Elements(AsPack(Packed(v)))
    ensures Delivered(result, Packed(v)) == ItemsOf(Settled(result, v))
    ensures Open(TypeOf(v)) ==> Visited(Packer, v) == Conts(v)
  {
    BoxesAreDispatched(Unpacker(result), v);
    ResumableTraversalVisitsBoxes(Packed(v));
    PackingNeverSpreadsValues(v);
    UnboxedIsSettled(result, v);
    if Open(TypeOf(v)) {
      OpenGatesVisitAll(v);
    }
  }

  // ---------------------------------------------------------------------------------------
  // The shapes of what is delivered
  // ---------------------------------------------------------------------------------------

  /** What an element that is no tuple or container becomes. */
  function Own(result: (nat, nat) -> int, v: Val): seq<Val> {
    if v.Cont? then seq(|v.signature|, j requires 0 <= j < |v.signature| => Plain(v.signature[j], result(v.id, j)))
    else [v]
  }

  /** A tuple of continuables and plain values, with at least one continuable. */
  predicate Mixed(items: seq<Val>) {
    && (forall i | 0 <= i < |items| :: items[i].Cont? || items[i].Plain?)
    && exists i :: 0 <= i < |items| && items[i].Cont?
  }

  function Owns(result: (nat, nat) -> int, items: seq<Val>): seq<Val> {
    Concat(seq(|items|, i requires 0 <= i < |items| => Own(result, items[i])))
  }

  lemma ContIsOnlyConts(items: seq<Val>, i: nat)
    requires i < |items| && items[i].Cont?
    ensures SomeOnlyConts(TypesOf(items))
  {
    assert LeafTypes(TypeOf(items[i])) == [TypeOf(items[i])];
    assert TypesOf(items)[i] == TypeOf(items[i]) && OnlyConts(TypesOf(items)[i]);
  }

  lemma SettledMixed(result: (nat, nat) -> int, items: seq<Val>)
    requires Mixed(items)
    ensures WellTyped(Tuple(items)) && Unboxed(TypeOf(Tuple(items)))
    ensures AllSettled(result, items) == Owns(result, items)
    ensures Settled(result, Tuple(items)) == if Owns(result, items) == [] then [] else [Tuple(Owns(result, items))]
  {
    var i :| 0 <= i < |items| && items[i].Cont?;
    ContIsOnlyConts(items, i);
    forall k | 0 <= k < |items| ensures Unboxed(TypesOf(items)[k]) {
      assert TypesOf(items)[k] == TypeOf(items[k]);
    }
    assert seq(|items|, i requires 0 <= i < |items| => Settled(result, items[i]))
        == seq(|items|, i requires 0 <= i < |items| => Own(result, items[i]));
  }

  /** The arguments of a connection: the results of each continuable, however many, one after another between
      the plain values. */
  lemma ResultsAreSpread(result: (nat, nat) -> int, items: seq<Val>)
    requires Mixed(items)
    ensures Packed(Tuple(items)).Tuple? && Delivered(result, Packed(Tuple(items))) == Owns(result, items)
  {
    SettledMixed(result, items);
    ConnectionDeliversSettledPack(result, Tuple(items));
  }

  /** A tuple in the pack stays a tuple, into which the results are spread; it disappears if nothing is left
      of it. */
  lemma TupleStaysTuple(result: (nat, nat) -> int, items: seq<Val>, c: Val)
    requires Mixed(items) && c.Cont?
    ensures var pack := Packed(Tuple([Tuple(items), c]));
            pack.Tuple?
            && Delivered(result, pack) ==
                 (if Owns(result, items) == [] then [] else [Tuple(Owns(result, items))]) + Own(result, c)
  {
    SettledMixed(result, items);
    SettledBeside(result, Tuple(items), c);
    ConnectionDeliversSettledPack(result, Tuple([Tuple(items), c]));
  }

  lemma SettledBeside(result: (nat, nat) -> int, v: Val, c: Val)
    requires c.Cont? && WellTyped(v) && Unboxed(TypeOf(v))
    ensures WellTyped(Tuple([v, c])) && Unboxed(TypeOf(Tuple([v, c])))
    ensures var vs := Settled(result, v) + Own(result, c);
            Settled(result, Tuple([v, c])) == if vs == [] then [] else [Tuple(vs)]
  {
    var items := [v, c];
    ContIsOnlyConts(items, 1);
    assert TypesOf(items)[0] == TypeOf(v) && TypesOf(items)[1] == TypeOf(c);
    var packs := seq(2, i requires 0 <= i < 2 => Settled(result, items[i]));
    assert packs == [packs[0]] + [packs[1]];
    ConcatSplits([packs[0]], [packs[1]]);
    assert Concat([packs[0]]) == packs[0] + [] && Concat([packs[1]]) == packs[1] + [];
    assert packs[0] == Settled(result, v) && packs[1] == Settled(result, c) == Own(result, c);
    assert AllSettled(result, items) == Concat(packs) == packs[0] + packs[1];
    assert SomeOnlyConts(TypesOf(items));
    var vs := AllSettled(result, items);
    assert Settled(result, Tuple(items)) == if vs == [] then [] else [Tuple(vs)];
  }

  /** A container of continuables becomes one of their results: single ones as they are, several together as a
      tuple. If there are none the container disappears, whatever its size. */
  lemma ContainerStaysContainer(result: (nat, nat) -> int, s: seq<nat>, ids: seq<nat>)
    ensures var conts := Container(ContTy(s), seq(|ids|, i requires 0 <= i < |ids| => Cont(ids[i], s)));
            var pack := Packed(Tuple([conts]));
            var types := seq(|s|, j requires 0 <= j < |s| => PlainTy(s[j]));
            pack.Tuple?
            && Delivered(result, pack) ==
                 if |s| == 0 then []
                 else if |s| == 1 then
                   [Container(types[0], seq(|ids|, i requires 0 <= i < |ids| => Plain(s[0], result(ids[i], 0))))]
                 else
                   [Container(TupleTy(types),
                              seq(|ids|, i requires 0 <= i < |ids| => Tuple(Own(result, Cont(ids[i], s)))))]
  {
    var v := Container(ContTy(s), seq(|ids|, i requires 0 <= i < |ids| => Cont(ids[i], s)));
    assert LeafTypes(TypeOf(v)) == [ContTy(s)] && OnlyConts(v.element) && OnlyConts(TypeOf(v));
    assert TypesOf([v])[0] == TypeOf(v) && SomeOnlyConts(TypesOf([v]));
    ConnectionDeliversSettledPack(result, Tuple([v]));
    var packs := seq(1, i requires 0 <= i < 1 => Settled(result, [v][i]));
    assert packs[1..] == [] && Concat(packs) == packs[0] + [] == Settled(result, v);
    SettledContainer(result, s, ids);
  }

  lemma SettledContainer(result: (nat, nat) -> int, s: seq<nat>, ids: seq<nat>)
    ensures var conts := Container(ContTy(s), seq(|ids|, i requires 0 <= i < |ids| => Cont(ids[i], s)));
            var types := seq(|s|, j requires 0 <= j < |s| => PlainTy(s[j]));
            Settled(result, conts) ==
              if |s| == 0 then []
              else if |s| == 1 then
                [Container(types[0], seq(|ids|, i requires 0 <= i < |ids| => Plain(s[0], result(ids[i], 0))))]
              else
                [Container(TupleTy(types),
                           seq(|ids|, i requires 0 <= i < |ids| => Tuple(Own(result, Cont(ids[i], s)))))]
  {
    var elements := seq(|ids|, i requires 0 <= i < |ids| => Cont(ids[i], s));
    assert LeafTypes(ContTy(s)) == [ContTy(s)] && OnlyConts(ContTy(s));
    var ones := seq(|ids|, i requires 0 <= i < |ids| => AsOne(Settled(result, elements[i])));
    if |s| == 1 {
      assert ones == seq(|ids|, i requires 0 <= i < |ids| => Plain(s[0], result(ids[i], 0)));
    } else if |s| > 1 {
      assert ones == seq(|ids|, i requires 0 <= i < |ids| => Tuple(Own(result, Cont(ids[i], s))));
    }
  }

  // ---------------------------------------------------------------------------------------
  // Every result in its place
  // ---------------------------------------------------------------------------------------

  /** What is found in a value from left to right: numbers, and continuables that were left in it. */
  datatype Leaf = Number(value: int) | Unresolved(id: nat)

  /** The results of the continuables that have any. */
  type Filling = nat -> Option<seq<Arg>>

  /** A value read from left to right, with the results in the places of their continuables. */
  function Leaves(v: Val, results: Filling): seq<Leaf> {
    match v
    case Plain(_, x) => [Number(x)]
    case Cont(id, _) =>
      (match results(id)
       case None => [Unresolved(id)]
       case Some(args) => seq(|args|, j requires 0 <= j < |args| => Number(args[j])))
    case Tuple(items) => AllLeaves(items, results)
    case Container(_, elements) => AllLeaves(elements, results)
    case Box(_, _) => []
  }

  function AllLeaves(vs: seq<Val>, results: Filling): seq<Leaf> {
    Concat(seq(|vs|, i requires 0 <= i < |vs| => Leaves(vs[i], results)))
  }

  function NoResults(): Filling { (id: nat) => None }

  /** Each continuable that has results has as many as it should. */
  predicate Fits(v: Val, results: Filling) {
    match v
    case Cont(id, s) => results(id).Some? ==> |results(id).value| == |s|
    case Tuple(items) => forall i | 0 <= i < |items| :: Fits(items[i], results)
    case Container(_, elements) => forall i | 0 <= i < |elements| :: Fits(elements[i], results)
    case _ => true
  }

  /** The boxes hold these results. */
  ghost predicate Holds(result: (nat, nat) -> int, results: Filling) {
    forall id: nat, j: nat | results(id).Some? && j < |results(id).value| :: result(id, j) == results(id).value[j]
  }

  /** Behind open gates the continuables have results, elsewhere they do not. */
  ghost predicate Matches(v: Val, results: Filling) {
    match v
    case Cont(id, s) => results(id).Some? && |results(id).value| == |s|
    case Tuple(items) =>
      if SomeOnlyConts(TypesOf(items)) then forall i | 0 <= i < |items| :: Matches(items[i], results)
      else forall id | id in Conts(v) :: results(id).None?
    case Container(e, elements) =>
      if OnlyConts(e) then forall i | 0 <= i < |elements| :: Matches(elements[i], results)
      else forall id | id in Conts(v) :: results(id).None?
    case _ => true
  }

  predicate NoRepeat(ids: seq<nat>) { forall i, j | 0 <= i < j < |ids| :: ids[i] != ids[j] }

  lemma SharedRepeats(packs: seq<seq<nat>>, i: nat, j: nat, id: nat)
    requires i < j < |packs| && id in packs[i] && id in packs[j]
    ensures !NoRepeat(Concat(packs))
  {
    ConcatAround(packs, i);
    InConcat(packs[i + 1..], id);
    assert packs[i + 1..][j - i - 1] == packs[j];
    var whole, before, after := Concat(packs), Concat(packs[..i]), Concat(packs[i + 1..]);
    var a :| 0 <= a < |packs[i]| && packs[i][a] == id;
    var b :| 0 <= b < |after| && after[b] == id;
    assert whole[|before| + a] == id && whole[|before| + |packs[i]| + b] == id;
  }

  lemma OthersApart(packs: seq<seq<nat>>, i: nat, j: nat, id: nat)
    requires i < |packs| && j < |packs| && NoRepeat(Concat(packs)) && id in packs[i] && id in packs[j]
    ensures i == j
  {
    if i < j {
      SharedRepeats(packs, i, j, id);
    } else if j < i {
      SharedRepeats(packs, j, i, id);
    }
  }

  lemma MiddleNoRepeat(before: seq<nat>, part: seq<nat>, after: seq<nat>)
    requires NoRepeat(before + part + after)
    ensures NoRepeat(part)
  {
    var whole := before + part + after;
    forall a, b | 0 <= a < b < |part| ensures part[a] != part[b] {
      assert whole[|before| + a] == part[a] && whole[|before| + b] == part[b];
    }
  }

  lemma PartNoRepeat(packs: seq<seq<nat>>, i: nat)
    requires i < |packs| && NoRepeat(Concat(packs))
    ensures NoRepeat(packs[i])
  {
    ConcatAround(packs, i);
    MiddleNoRepeat(Concat(packs[..i]), packs[i], Concat(packs[i + 1..]));
  }

  /** The continuables with results are the visited ones. */
  ghost predicate ForVisited(v: Val, results: Filling) {
    forall id | id in Conts(v) :: results(id).Some? <==> id in Visited(Packer, v)
  }

  lemma PartForVisited(vs: seq<Val>, i: nat, results: Filling)
    requires i < |vs| && NoRepeat(ContsOf(vs))
    requires forall id | id in ContsOf(vs) :: results(id).Some? <==> id in VisitedAll(Packer, vs)
    ensures NoRepeat(Conts(vs[i])) && ForVisited(vs[i], results)
  {
    var packs := seq(|vs|, k requires 0 <= k < |vs| => Conts(vs[k]));
    PartNoRepeat(packs, i);
    forall id | id in Conts(vs[i]) ensures results(id).Some? <==> id in Visited(Packer, vs[i]) {
      InConts(vs, id);
      InVisitedAll(vs, id);
      if id in VisitedAll(Packer, vs) {
        var j :| 0 <= j < |vs| && id in Visited(Packer, vs[j]);
        VisitedAreConts(vs[j], id);
        assert id in packs[i] && id in packs[j];
        OthersApart(packs, i, j, id);
      }
    }
  }

  lemma {:induction false} VisitedMatches(v: Val, results: Filling)
    requires NoRepeat(Conts(v)) && ForVisited(v, results) && Fits(v, results)
    ensures Matches(v, results)
    decreases v
  {
    GateOf(TypeOf(v));
    match v
    case Tuple(items) =>
      if SomeOnlyConts(TypesOf(items)) {
        forall i | 0 <= i < |items| ensures Matches(items[i], results) {
          PartForVisited(items, i, results);
          VisitedMatches(items[i], results);
        }
      }
    case Container(e, elements) =>
      if OnlyConts(e) {
        forall i | 0 <= i < |elements| ensures Matches(elements[i], results) {
          PartForVisited(elements, i, results);
          VisitedMatches(elements[i], results);
        }
      }
    case _ =>
  }

  lemma {:induction false} LeavesOfConcat(packs: seq<seq<Val>>, results: Filling)
    ensures AllLeaves(Concat(packs), results)
         == Concat(seq(|packs|, i requires 0 <= i < |packs| => AllLeaves(packs[i], results)))
  {
    if packs != [] {
      var rest := seq(|packs| - 1, i requires 0 <= i < |packs| - 1 => AllLeaves(packs[1..][i], results));
      LeavesOfConcat(packs[1..], results);
      LeavesSplit(packs[0], Concat(packs[1..]), results);
      assert seq(|packs|, i requires 0 <= i < |packs| => AllLeaves(packs[i], results))[1..] == rest;
    }
  }

  lemma LeavesSplit(xs: seq<Val>, ys: seq<Val>, results: Filling)
    ensures AllLeaves(xs + ys, results) == AllLeaves(xs, results) + AllLeaves(ys, results)
  {
    var a := seq(|xs|, i requires 0 <= i < |xs| => Leaves(xs[i], results));
    var b := seq(|ys|, i requires 0 <= i < |ys| => Leaves(ys[i], results));
    ConcatSplits(a, b);
    assert seq(|xs + ys|, i requires 0 <= i < |xs + ys| => Leaves((xs + ys)[i], results)) == a + b;
  }

  lemma OneLeaf(v: Val, results: Filling)
    ensures AllLeaves([v], results) == Leaves(v, results)
  {
    var packs := seq(1, i requires 0 <= i < 1 => Leaves([v][i], results));
    assert packs[0] == Leaves(v, results) && Concat(packs[1..]) == [];
    assert packs[0] + [] == packs[0];
  }

  lemma LeavesOfOne(vs: seq<Val>, results: Filling)
    ensures Leaves(AsOne(vs), results) == AllLeaves(vs, results)
  {
    if |vs| == 1 {
      assert vs == [vs[0]];
      OneLeaf(vs[0], results);
    }
  }

  /** A value without results. */
  lemma {:induction false} LeftAsItIs(v: Val, results: Filling)
    requires forall id | id in Conts(v) :: results(id).None?
    ensures Leaves(v, results) == Leaves(v, NoResults())
    decreases v
  {
    match v
    case Tuple(items) => AllLeftAsTheyAre(items, results);
    case Container(_, elements) => AllLeftAsTheyAre(elements, results);
    case _ =>
  }

  lemma {:induction false} AllLeftAsTheyAre(vs: seq<Val>, results: Filling)
    requires forall id | id in ContsOf(vs) :: results(id).None?
    ensures AllLeaves(vs, results) == AllLeaves(vs, NoResults())
    decreases vs, 1
  {
    forall i | 0 <= i < |vs| ensures Leaves(vs[i], results) == Leaves(vs[i], NoResults()) {
      forall id | id in Conts(vs[i]) ensures results(id).None? {
        InConts(vs, id);
      }
      LeftAsItIs(vs[i], results);
    }
    assert seq(|vs|, i requires 0 <= i < |vs| => Leaves(vs[i], results))
        == seq(|vs|, i requires 0 <= i < |vs| => Leaves(vs[i], NoResults()));
  }

  lemma {:induction false} SettledHasTypes(result: (nat, nat) -> int, v: Val)
    requires WellTyped(v) && Unboxed(TypeOf(v))
    ensures TypesOf(Settled(result, v)) == SettledTypes(TypeOf(v))
  {
    var m := Unpacker(result);
    UnboxedIsSettled(result, v);
    UnpackedTypesAreSettled(m, TypeOf(v));
    PackedTypeAgrees(v);
    MappingPreservesTypes(m, Packed(v));
  }

  lemma {:induction false} SettledLeaves(result: (nat, nat) -> int, v: Val, results: Filling)
    requires WellTyped(v) && Unboxed(TypeOf(v)) && Matches(v, results) && Holds(result, results)
    ensures AllLeaves(Settled(result, v), NoResults()) == Leaves(v, results)
    decreases v, 1
  {
    match v
    case Plain(_, _) => OneLeaf(v, NoResults());
    case Cont(id, s) =>
      PlainLeaves(Settled(result, v), NoResults());
      assert Leaves(v, results) == seq(|s|, j requires 0 <= j < |s| => Number(Settled(result, v)[j].value));
    case Tuple(items) =>
      if SomeOnlyConts(TypesOf(items)) {
        forall i | 0 <= i < |items| ensures Unboxed(TypeOf(items[i])) {
          assert TypesOf(items)[i] == TypeOf(items[i]);
        }
        AllSettledLeaves(result, items, results);
        var vs := AllSettled(result, items);
        if vs != [] {
          OneLeaf(Tuple(vs), NoResults());
        }
      } else {
        OneLeaf(v, NoResults());
        LeftAsItIs(v, results);
      }
    case Container(e, elements) =>
      if OnlyConts(e) {
        ContainerLeaves(result, v, results);
      } else {
        OneLeaf(v, NoResults());
        LeftAsItIs(v, results);
      }
    case Box(_, _) =>
  }

  lemma {:induction false} PlainLeaves(vs: seq<Val>, results: Filling)
    requires forall i | 0 <= i < |vs| :: vs[i].Plain?
    ensures AllLeaves(vs, results) == seq(|vs|, i requires 0 <= i < |vs| => Number(vs[i].value))
  {
    if vs != [] {
      assert vs == [vs[0]] + vs[1..];
      LeavesSplit([vs[0]], vs[1..], results);
      OneLeaf(vs[0], results);
      PlainLeaves(vs[1..], results);
    }
  }

  lemma {:induction false} AllSettledLeaves(result: (nat, nat) -> int, vs: seq<Val>, results: Filling)
    requires Holds(result, results)
    requires forall i | 0 <= i < |vs| :: WellTyped(vs[i]) && Unboxed(TypeOf(vs[i])) && Matches(vs[i], results)
    ensures AllLeaves(AllSettled(result, vs), NoResults()) == AllLeaves(vs, results)
    decreases vs, 1
  {
    var packs := seq(|vs|, i requires 0 <= i < |vs| => Settled(result, vs[i]));
    forall i | 0 <= i < |vs| ensures AllLeaves(packs[i], NoResults()) == Leaves(vs[i], results) {
      SettledLeaves(result, vs[i], results);
    }
    LeavesOfConcat(packs, NoResults());
    assert seq(|packs|, i requires 0 <= i < |packs| => AllLeaves(packs[i], NoResults()))
        == seq(|vs|, i requires 0 <= i < |vs| => Leaves(vs[i], results));
  }

  lemma {:induction false} ContainerLeaves(result: (nat, nat) -> int, v: Val, results: Filling)
    requires v.Container? && OnlyConts(v.element) && WellTyped(v) && Unboxed(TypeOf(v)) && Holds(result, results)
    requires Matches(v, results)
    ensures AllLeaves(Settled(result, v), NoResults()) == Leaves(v, results)
    decreases v, 0
  {
    var elements := v.elements;
    var stored := seq(|elements|, i requires 0 <= i < |elements| => AsOne(Settled(result, elements[i])));
    forall i | 0 <= i < |elements|
      ensures Leaves(stored[i], NoResults()) == Leaves(elements[i], results)
      ensures SettledTypes(v.element) == [] ==> Leaves(elements[i], results) == []
    {
      SettledLeaves(result, elements[i], results);
      SettledHasTypes(result, elements[i]);
      LeavesOfOne(Settled(result, elements[i]), NoResults());
    }
    var packs := seq(|elements|, i requires 0 <= i < |elements| => Leaves(elements[i], results));
    assert seq(|stored|, i requires 0 <= i < |stored| => Leaves(stored[i], NoResults())) == packs;
    if SettledTypes(v.element) == [] {
      ConcatOfNothing(packs);
    } else {
      OneLeaf(Settled(result, v)[0], NoResults());
    }
  }

  /** Read from left to right, the arguments of the callback are the pack with the results of each visited
      continuable in its place, all of them and its own; what was not visited is still there. */
  lemma EveryResultInItsPlace(result: (nat, nat) -> int, v: Val, results: Filling)
    requires v.Tuple? && WellTyped(v) && Unboxed(TypeOf(v)) && NoRepeat(Conts(v))
    requires ForVisited(v, results) && Fits(v, results) && Holds(result, results)
    ensures AllLeaves(Delivered(result, Packed(v)), NoResults()) == Leaves(v, results)
  {
    ConnectionDeliversSettledPack(result, v);
    VisitedMatches(v, results);
    SettledLeaves(result, v, results);
    var settled := Settled(result, v);
    if settled != [] {
      OneLeaf(settled[0], NoResults());
    }
  }

  lemma {:induction false} UnresolvedIff(v: Val, results: Filling, id: nat)
    ensures Unresolved(id) in Leaves(v, results) <==> id in Conts(v) && results(id).None?
    decreases v, 0
  {
    match v
    case Tuple(items) => AnyUnresolvedIff(items, results, id);
    case Container(_, elements) => AnyUnresolvedIff(elements, results, id);
    case _ =>
  }

  lemma {:induction false} AnyUnresolvedIff(vs: seq<Val>, results: Filling, id: nat)
    ensures Unresolved(id) in AllLeaves(vs, results) <==> id in ContsOf(vs) && results(id).None?
    decreases vs, 1
  {
    var packs := seq(|vs|, i requires 0 <= i < |vs| => Leaves(vs[i], results));
    InConcat(packs, Unresolved(id));
    InConts(vs, id);
    forall i | 0 <= i < |vs|
      ensures Unresolved(id) in packs[i] <==> id in Conts(vs[i]) && results(id).None?
    {
      UnresolvedIff(vs[i], results, id);
    }
  }

  /** Which continuables are handed to the callback instead of their results: those that were not visited. */
  lemma LeftIffNotVisited(result: (nat, nat) -> int, v: Val, results: Filling, id: nat)
    requires v.Tuple? && WellTyped(v) && Unboxed(TypeOf(v)) && NoRepeat(Conts(v)) && id in Conts(v)
    requires ForVisited(v, results) && Fits(v, results) && Holds(result, results)
    ensures id in ContsOf(Delivered(result, Packed(v))) <==> id !in Visited(Packer, v)
  {
    EveryResultInItsPlace(result, v, results);
    UnresolvedIff(v, results, id);
    AnyUnresolvedIff(Delivered(result, Packed(v)), NoResults(), id);
  }

  // ---------------------------------------------------------------------------------------
  // What is delivered with open gates
  // ---------------------------------------------------------------------------------------

  /** What a pack should resolve to: the same in every tuple and container, whether or not a gate is
      closed. Parts without continuables are kept as they are. */
  function Resolved(result: (nat, nat) -> int, v: Val): seq<Val> {
    if !HasCont(TypeOf(v)) then [v]
    else
      match v
      case Cont(id, s) => seq(|s|, j requires 0 <= j < |s| => Plain(s[j], result(id, j)))
      case Tuple(items) =>
        var vs := AllResolved(result, items);
        if vs == [] then [] else [Tuple(vs)]
      case Container(e, elements) =>
        if ResolvedTypes(e) == [] then []
        else
          [Container(if |ResolvedTypes(e)| == 1 then ResolvedTypes(e)[0] else TupleTy(ResolvedTypes(e)),
                     seq(|elements|, i requires 0 <= i < |elements| => AsOne(Resolved(result, elements[i]))))]
      case _ => [v]
  }

  function AllResolved(result: (nat, nat) -> int, vs: seq<Val>): seq<Val> {
    Concat(seq(|vs|, i requires 0 <= i < |vs| => Resolved(result, vs[i])))
  }

  function ResolvedTypes(t: Ty): seq<Ty> {
    if !HasCont(t) then [t]
    else
      match t
      case ContTy(s) => seq(|s|, j requires 0 <= j < |s| => PlainTy(s[j]))
      case TupleTy(types) =>
        var ts := AllResolvedTypes(types);
        if ts == [] then [] else [TupleTy(ts)]
      case ContainerTy(e) =>
        if ResolvedTypes(e) == [] then []
        else [ContainerTy(if |ResolvedTypes(e)| == 1 then ResolvedTypes(e)[0] else TupleTy(ResolvedTypes(e)))]
      case _ => [t]
  }

  function AllResolvedTypes(types: seq<Ty>): seq<Ty> {
    Concat(seq(|types|, i requires 0 <= i < |types| => ResolvedTypes(types[i])))
  }

  /** Without continuables every gate is closed. */
  lemma NothingToResolve(t: Ty)
    requires !HasCont(t)
    ensures t.TupleTy? ==> !SomeOnlyConts(t.types)
    ensures t.ContainerTy? ==> !OnlyConts(t.element)
    ensures SettledTypes(t) == [t]
  {
    match t
    case TupleTy(types) =>
      forall i | 0 <= i < |types| ensures !OnlyConts(types[i]) {
        StrictIffOnlyConts(types[i]);
        if OnlyConts(types[i]) {
          StrictMeansOpen(types[i]);
        }
      }
    case ContainerTy(e) =>
      StrictIffOnlyConts(e);
      if OnlyConts(e) {
        StrictMeansOpen(e);
      }
    case _ =>
  }

  lemma {:induction false} OpenTypesAreResolved(t: Ty)
    requires Open(t)
    ensures SettledTypes(t) == ResolvedTypes(t)
    decreases t
  {
    if !HasCont(t) {
      NothingToResolve(t);
    } else {
      match t
      case TupleTy(types) =>
        forall i | 0 <= i < |types| ensures SettledTypes(types[i]) == ResolvedTypes(types[i]) {
          OpenTypesAreResolved(types[i]);
        }
        assert seq(|types|, i requires 0 <= i < |types| => SettledTypes(types[i]))
            == seq(|types|, i requires 0 <= i < |types| => ResolvedTypes(types[i]));
      case ContainerTy(e) =>
        StrictIffOnlyConts(e);
        StrictMeansOpen(e);
        OpenTypesAreResolved(e);
      case _ =>
    }
  }

  lemma {:induction false} OpenIsResolved(result: (nat, nat) -> int, v: Val)
    requires WellTyped(v) && Open(TypeOf(v))
    ensures Settled(result, v) == Resolved(result, v)
    decreases v
  {
    if !HasCont(TypeOf(v)) {
      NothingToResolve(TypeOf(v));
    } else {
      match v
      case Tuple(items) =>
        forall i | 0 <= i < |items| ensures Settled(result, items[i]) == Resolved(result, items[i]) {
          assert TypesOf(items)[i] == TypeOf(items[i]);
          OpenIsResolved(result, items[i]);
        }
        assert seq(|items|, i requires 0 <= i < |items| => Settled(result, items[i]))
            == seq(|items|, i requires 0 <= i < |items| => Resolved(result, items[i]));
      case Container(e, elements) =>
        StrictIffOnlyConts(e);
        StrictMeansOpen(e);
        OpenTypesAreResolved(e);
        forall i | 0 <= i < |elements| ensures Settled(result, elements[i]) == Resolved(result, elements[i]) {
          OpenIsResolved(result, elements[i]);
        }
        assert seq(|elements|, i requires 0 <= i < |elements| => AsOne(Settled(result, elements[i])))
            == seq(|elements|, i requires 0 <= i < |elements| => AsOne(Resolved(result, elements[i])));
      case _ =>
    }
  }

  ghost predicate SomeHasCont(ts: seq<Ty>) { exists k :: 0 <= k < |ts| && HasCont(ts[k]) }

  lemma ConcatHasCont(packs: seq<seq<Ty>>)
    ensures SomeHasCont(Concat(packs)) <==> exists i :: 0 <= i < |packs| && SomeHasCont(packs[i])
  {
    if k :| 0 <= k < |Concat(packs)| && HasCont(Concat(packs)[k]) {
      var t := Concat(packs)[k];
      InConcat(packs, t);
      assert t in Concat(packs);
      var i :| 0 <= i < |packs| && t in packs[i];
      assert SomeHasCont(packs[i]);
    }
    if i :| 0 <= i < |packs| && SomeHasCont(packs[i]) {
      var k :| 0 <= k < |packs[i]| && HasCont(packs[i][k]);
      InConcat(packs, packs[i][k]);
      assert packs[i][k] in Concat(packs);
    }
  }

  lemma TupleHasCont(ts: seq<Ty>)
    ensures HasCont(TupleTy(ts)) <==> SomeHasCont(ts)
  {
  }

  /** What a pack should resolve to holds no continuables. */
  lemma {:induction false} ResolvedLeavesNothing(t: Ty)
    ensures !SomeHasCont(ResolvedTypes(t))
    decreases t
  {
    if HasCont(t) {
      match t
      case TupleTy(types) =>
        var packs := seq(|types|, i requires 0 <= i < |types| => ResolvedTypes(types[i]));
        forall i | 0 <= i < |types| ensures !SomeHasCont(packs[i]) {
          ResolvedLeavesNothing(types[i]);
        }
        ConcatHasCont(packs);
        TupleHasCont(Concat(packs));
      case ContainerTy(e) =>
        ResolvedLeavesNothing(e);
        var ts := ResolvedTypes(e);
        TupleHasCont(ts);
      case ContTy(s) => assert forall j | 0 <= j < |s| :: !HasCont(PlainTy(s[j]));
      case _ =>
    }
  }

  /** Behind a closed gate one is left. */
  lemma {:induction false} ClosedLeavesSome(t: Ty)
    requires !Open(t)
    ensures SomeHasCont(SettledTypes(t))
    decreases t
  {
    match t
    case TupleTy(types) =>
      if SomeOnlyConts(types) {
        var packs := seq(|types|, i requires 0 <= i < |types| => SettledTypes(types[i]));
        var i :| 0 <= i < |types| && !Open(types[i]);
        ClosedLeavesSome(types[i]);
        assert SomeHasCont(packs[i]);
        ConcatHasCont(packs);
        TupleHasCont(Concat(packs));
        assert Concat(packs) != [] && SettledTypes(t) == [TupleTy(Concat(packs))];
        assert HasCont(SettledTypes(t)[0]);
      } else {
        assert HasCont(SettledTypes(t)[0]);
      }
    case ContainerTy(e) => assert HasCont(SettledTypes(t)[0]);
    case _ =>
  }

  lemma {:induction false} TypesOfConcat(packs: seq<seq<Val>>)
    ensures TypesOf(Concat(packs)) == Concat(seq(|packs|, i requires 0 <= i < |packs| => TypesOf(packs[i])))
  {
    if packs != [] {
      TypesOfConcat(packs[1..]);
      var types := seq(|packs|, i requires 0 <= i < |packs| => TypesOf(packs[i]));
      assert types[1..] == seq(|packs[1..]|, i requires 0 <= i < |packs[1..]| => TypesOf(packs[1..][i]));
      assert TypesOf(packs[0] + Concat(packs[1..])) == TypesOf(packs[0]) + TypesOf(Concat(packs[1..]));
    }
  }

  lemma {:induction false} ResolvedHasTypes(result: (nat, nat) -> int, v: Val)
    requires WellTyped(v)
    ensures TypesOf(Resolved(result, v)) == ResolvedTypes(TypeOf(v))
    decreases v
  {
    if HasCont(TypeOf(v)) {
      match v
      case Tuple(items) =>
        var packs := seq(|items|, i requires 0 <= i < |items| => Resolved(result, items[i]));
        forall i | 0 <= i < |items| ensures TypesOf(packs[i]) == ResolvedTypes(TypesOf(items)[i]) {
          ResolvedHasTypes(result, items[i]);
        }
        TypesOfConcat(packs);
        assert seq(|packs|, i requires 0 <= i < |packs| => TypesOf(packs[i]))
            == seq(|items|, i requires 0 <= i < |items| => ResolvedTypes(TypesOf(items)[i]));
      case _ =>
    }
  }

  /** The exact condition under which a pack settles to what it should: the gates are open wherever
      continuables occur. */
  lemma ResolvedIffOpen(result: (nat, nat) -> int, v: Val)
    requires WellTyped(v) && Unboxed(TypeOf(v))
    ensures Settled(result, v) == Resolved(result, v) <==> Open(TypeOf(v))
  {
    if Open(TypeOf(v)) {
      OpenIsResolved(result, v);
    } else {
      ClosedLeavesSome(TypeOf(v));
      SettledHasTypes(result, v);
      ResolvedHasTypes(result, v);
      ResolvedLeavesNothing(TypeOf(v));
    }
  }
}
