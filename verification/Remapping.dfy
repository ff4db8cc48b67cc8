/** The synchronous mapping and traversal of nested packs, and its use by the connections: the
    continuables of a pack are put into boxes, the boxes are dispatched, and at the end they are
    replaced by the results. Which tuples and containers are entered is decided on types alone. */
module Remapping {
  import opened Results
  import Async = AsyncTraversal

  /** Types of a pack. A signature lists the types of the asynchronous arguments. */
  datatype Ty =
    | PlainTy(name: nat)
    | ContTy(signature: seq<nat>)
    | BoxTy(signature: seq<nat>)
    | TupleTy(types: seq<Ty>)
    | ContainerTy(element: Ty)

  /** Values of a pack. A container knows the type of its elements, even if it has none. */
  datatype Val =
    | Plain(name: nat, value: int)
    | Cont(id: nat, signature: seq<nat>)
    | Box(id: nat, signature: seq<nat>)
    | Tuple(items: seq<Val>)
    | Container(element: Ty, elements: seq<Val>)

  function TypeOf(v: Val): Ty {
    match v
    case Plain(name, _) => PlainTy(name)
    case Cont(_, s) => ContTy(s)
    case Box(_, s) => BoxTy(s)
    case Tuple(items) => TupleTy(TypesOf(items))
    case Container(t, _) => ContainerTy(t)
  }

  function TypesOf(vs: seq<Val>): seq<Ty> {
    seq(|vs|, i requires 0 <= i < |vs| => TypeOf(vs[i]))
  }

  ghost predicate WellTyped(v: Val) {
    match v
    case Tuple(items) => forall i | 0 <= i < |items| :: WellTyped(items[i])
    case Container(t, elements) => forall i | 0 <= i < |elements| :: WellTyped(elements[i]) && TypeOf(elements[i]) == t
    case _ => true
  }

  /** What an element is mapped to: one object, or several ones to be spread into its parent. */
  datatype Mapped<T> = One(item: T) | Spread(spread: seq<T>)

  /** The two mappers of a connection: continuables to boxes, and boxes to their results. The results
      are the contents of the boxes: result `j` of box `id`. */
  datatype Mapper = Packer | Unpacker(result: (nat, nat) -> int)

  predicate Accepts(m: Mapper, t: Ty) {
    match m case Packer => t.ContTy? case Unpacker(_) => t.BoxTy?
  }

  function LeafType(m: Mapper, t: Ty): Mapped<Ty>
    requires Accepts(m, t)
  {
    match m
    case Packer => One(BoxTy(t.signature))
    case Unpacker(_) => Unpacked(seq(|t.signature|, j requires 0 <= j < |t.signature| => PlainTy(t.signature[j])))
  }

  function Leaf(m: Mapper, v: Val): Mapped<Val>
    requires Accepts(m, TypeOf(v))
  {
    match m
    case Packer => One(Box(v.id, v.signature))
    case Unpacker(_) => Unpacked(ResultsOf(m, v.id, v.signature))
  }

  function ResultsOf(m: Mapper, id: nat, signature: seq<nat>): seq<Val>
    requires m.Unpacker?
  {
    seq(|signature|, j requires 0 <= j < |signature| => Plain(signature[j], m.result(id, j)))
  }

  /** `unbox`: a single result stands for itself, none or several are spread. */
  function Unpacked<T>(results: seq<T>): Mapped<T> {
    if |results| == 1 then One(results[0]) else Spread(results)
  }

  /** The strict matcher: every element of a tuple has to be accepted, and there has to be one. */
  predicate Strict(m: Mapper, t: Ty) {
    match t
    case TupleTy(types) => types != [] && forall i | 0 <= i < |types| :: Strict(m, types[i])
    case ContainerTy(e) => Strict(m, e)
    case _ => Accepts(m, t)
  }

  /** The gate of a tuple: the strict matcher accepts some element of it. */
  predicate Effective(m: Mapper, types: seq<Ty>) {
    exists i :: 0 <= i < |types| && Strict(m, types[i])
  }

  /** `undecorate` and `tuple_cat`. */
  function Flat<T>(ms: seq<Mapped<T>>): seq<T> {
    if ms == [] then []
    else (match ms[0] case One(x) => [x] case Spread(xs) => xs) + Flat(ms[1..])
  }

  /** A remapped tuple; it is erased when nothing is left of it. */
  function TupleTypeOf(types: seq<Ty>): Mapped<Ty> {
    if types == [] then Spread([]) else One(TupleTy(types))
  }

  function TupleOf(items: seq<Val>): Mapped<Val> {
    if items == [] then Spread([]) else One(Tuple(items))
  }

  predicate Erased<T>(m: Mapped<T>) { m.Spread? && m.spread == [] }

  /** `unpack`: what a container stores for a mapped element. */
  function StoredType(m: Mapped<Ty>): Ty {
    match m case One(t) => t case Spread(ts) => TupleTy(ts)
  }

  function StoredItem(m: Mapped<Val>): Val {
    match m case One(v) => v case Spread(vs) => Tuple(vs)
  }

  /** The mapping of types, which is what the compiler computes. */
  function MapType(m: Mapper, t: Ty): Mapped<Ty> {
    match t
    case TupleTy(types) =>
      if Effective(m, types) then TupleTypeOf(Flat(MapTypes(m, types))) else One(t)
    case ContainerTy(e) =>
      if !Strict(m, e) then One(t)
      else if Erased(MapType(m, e)) then Spread([])
      else One(ContainerTy(StoredType(MapType(m, e))))
    case _ => if Accepts(m, t) then LeafType(m, t) else One(t)
  }

  function MapTypes(m: Mapper, types: seq<Ty>): seq<Mapped<Ty>> {
    seq(|types|, i requires 0 <= i < |types| => MapType(m, types[i]))
  }

  /** The mapping of values: `map_pack`. */
  function MapValue(m: Mapper, v: Val): Mapped<Val> {
    match v
    case Tuple(items) =>
      if Effective(m, TypesOf(items)) then TupleOf(Flat(MapValues(m, items))) else One(v)
    case Container(e, elements) =>
      if !Strict(m, e) then One(v)
      else if Erased(MapType(m, e)) then Spread([])
      else One(Container(StoredType(MapType(m, e)), StoredItems(MapValues(m, elements))))
    case _ => if Accepts(m, TypeOf(v)) then Leaf(m, v) else One(v)
  }

  function MapValues(m: Mapper, vs: seq<Val>): seq<Mapped<Val>> {
    seq(|vs|, i requires 0 <= i < |vs| => MapValue(m, vs[i]))
  }

  function StoredItems(ms: seq<Mapped<Val>>): seq<Val> {
    seq(|ms|, i requires 0 <= i < |ms| => StoredItem(ms[i]))
  }

  /** `remap_container`: a new container, filled by `push_back`. */
  method RemapContainer(m: Mapper, container: Val) returns (remapped: Mapped<Val>)
    requires container.Container? && Strict(m, container.element)
    ensures remapped == MapValue(m, container)
  {
    var stored: seq<Val> := [];
    for i := 0 to |container.elements|
      invariant stored == StoredItems(MapValues(m, container.elements[..i]))
    {
      assert container.elements[..i + 1] == container.elements[..i] + [container.elements[i]];
      stored := stored + [StoredItem(MapValue(m, container.elements[i]))];
    }
    assert container.elements[..|container.elements|] == container.elements;
    if Erased(MapType(m, container.element)) {
      remapped := Spread([]);
    } else {
      remapped := One(Container(StoredType(MapType(m, container.element)), stored));
    }
  }

  // ---------------------------------------------------------------------------------------
  // Types are preserved
  // ---------------------------------------------------------------------------------------

  function MappedType(m: Mapped<Val>): Mapped<Ty> {
    match m case One(v) => One(TypeOf(v)) case Spread(vs) => Spread(TypesOf(vs))
  }

  function MappedTypes(ms: seq<Mapped<Val>>): seq<Mapped<Ty>> {
    seq(|ms|, i requires 0 <= i < |ms| => MappedType(ms[i]))
  }

  ghost predicate MappedWellTyped(m: Mapped<Val>) {
    match m case One(v) => WellTyped(v) case Spread(vs) => forall i | 0 <= i < |vs| :: WellTyped(vs[i])
  }

  lemma {:induction false} FlatTypes(ms: seq<Mapped<Val>>)
    requires forall i | 0 <= i < |ms| :: MappedWellTyped(ms[i])
    ensures TypesOf(Flat(ms)) == Flat(MappedTypes(ms))
    ensures forall i | 0 <= i < |Flat(ms)| :: WellTyped(Flat(ms)[i])
  {
    if ms != [] {
      var head := match ms[0] case One(x) => [x] case Spread(xs) => xs;
      var rest := Flat(ms[1..]);
      FlatTypes(ms[1..]);
      assert MappedTypes(ms)[1..] == MappedTypes(ms[1..]);
      assert MappedWellTyped(ms[0]);
      assert TypesOf(head + rest) == TypesOf(head) + TypesOf(rest);
    }
  }

  /** Mapping a value of a type gives a value of the mapped type, whatever the sizes of containers. */
  lemma {:induction false} MappingPreservesTypes(m: Mapper, v: Val)
    requires WellTyped(v)
    ensures MappedType(MapValue(m, v)) == MapType(m, TypeOf(v)) && MappedWellTyped(MapValue(m, v))
    decreases v
  {
    match v
    case Tuple(items) =>
      var ms := MapValues(m, items);
      forall i | 0 <= i < |items|
        ensures MappedType(ms[i]) == MapType(m, TypeOf(items[i])) && MappedWellTyped(ms[i])
      {
        MappingPreservesTypes(m, items[i]);
      }
      assert MappedTypes(ms) == MapTypes(m, TypesOf(items));
      FlatTypes(ms);
    case Container(e, elements) =>
      forall i | 0 <= i < |elements|
        ensures MappedType(MapValue(m, elements[i])) == MapType(m, e) && MappedWellTyped(MapValue(m, elements[i]))
      {
        MappingPreservesTypes(m, elements[i]);
      }
      var items := StoredItems(MapValues(m, elements));
      forall i | 0 <= i < |items| ensures WellTyped(items[i]) && TypeOf(items[i]) == StoredType(MapType(m, e)) {
        assert items[i] == StoredItem(MapValue(m, elements[i]));
      }
    case Box(id, signature) =>
      if m.Unpacker? {
        var results := ResultsOf(m, id, signature);
        assert TypesOf(results) == seq(|signature|, j requires 0 <= j < |signature| => PlainTy(signature[j]));
      }
    case _ =>
  }

  /** The arguments the callback of a connection is called with, given its boxed tuple. */
  function Delivered(result: (nat, nat) -> int, boxed: Val): seq<Val>
    requires boxed.Tuple?
  {
    ArgsOf(MapValue(Unpacker(result), boxed))
  }

  /** The arguments that a mapped pack stands for; none if it was erased. */
  function ArgsOf(m: Mapped<Val>): seq<Val> {
    match m
    case One(Tuple(items)) => items
    case _ => []
  }

  /** The signature that is computed from the type of the boxed tuple. */
  function Hint(result: (nat, nat) -> int, types: seq<Ty>): seq<Ty> {
    match MapType(Unpacker(result), TupleTy(types))
    case One(TupleTy(ts)) => ts
    case _ => []
  }

  /** The signature hint is exactly the list of types of the values that are later delivered,
      including the collapse to no arguments at all. */
  lemma HintIsExact(result: (nat, nat) -> int, boxed: Val)
    requires boxed.Tuple? && WellTyped(boxed)
    ensures TypesOf(Delivered(result, boxed)) == Hint(result, TypesOf(boxed.items))
  {
    MappingPreservesTypes(Unpacker(result), boxed);
    assert MapType(Unpacker(result), TypeOf(boxed)) == MappedType(MapValue(Unpacker(result), boxed));
  }

  // ---------------------------------------------------------------------------------------
  // Every box is dispatched and unboxed exactly once
  // ---------------------------------------------------------------------------------------

  /** The leaves that a mapper is called on, in order: `traverse_pack`. */
  function Visited(m: Mapper, v: Val): seq<nat> {
    match v
    case Tuple(items) => if Effective(m, TypesOf(items)) then VisitedAll(m, items) else []
    case Container(e, elements) => if Strict(m, e) then VisitedAll(m, elements) else []
    case Cont(id, _) => if m.Packer? then [id] else []
    case Box(id, _) => if m.Unpacker? then [id] else []
    case Plain(_, _) => []
  }

  function VisitedAll(m: Mapper, vs: seq<Val>): seq<nat> {
    Concat(seq(|vs|, i requires 0 <= i < |vs| => Visited(m, vs[i])))
  }

  /** The traversal itself: the elements of tuples and containers are passed on one after another. */
  method TraversePack(m: Mapper, v: Val) returns (visited: seq<nat>)
    ensures visited == Visited(m, v)
    decreases v, 1
  {
    match v
    case Tuple(items) =>
      if Effective(m, TypesOf(items)) {
        visited := TraverseAll(m, items);
      } else {
        visited := [];
      }
    case Container(e, elements) =>
      if Strict(m, e) {
        visited := TraverseAll(m, elements);
      } else {
        visited := [];
      }
    case Cont(id, _) => visited := if m.Packer? then [id] else [];
    case Box(id, _) => visited := if m.Unpacker? then [id] else [];
    case Plain(_, _) => visited := [];
  }

  method TraverseAll(m: Mapper, vs: seq<Val>) returns (visited: seq<nat>)
    ensures visited == VisitedAll(m, vs)
    decreases vs, 0
  {
    visited := [];
    for i := 0 to |vs|
      invariant visited == VisitedAll(m, vs[..i])
    {
      var more := TraversePack(m, vs[i]);
      VisitedOneMore(m, vs, i);
      visited := visited + more;
    }
    assert vs[..|vs|] == vs;
  }

  lemma VisitedOneMore(m: Mapper, vs: seq<Val>, i: nat)
    requires i < |vs|
    ensures VisitedAll(m, vs[..i + 1]) == VisitedAll(m, vs[..i]) + Visited(m, vs[i])
  {
    var xs := seq(i, k requires 0 <= k < i => Visited(m, vs[..i][k]));
    var ys := [Visited(m, vs[i])];
    assert seq(i + 1, k requires 0 <= k < i + 1 => Visited(m, vs[..i + 1][k])) == xs + ys;
    ConcatSplits(xs, ys);
    assert |ys[1..]| == 0;
  }

  /** All boxes of a pack, in order, and all continuables. */
  function Boxes(v: Val): seq<nat> {
    match v
    case Tuple(items) => BoxesOf(items)
    case Container(_, elements) => BoxesOf(elements)
    case Box(id, _) => [id]
    case _ => []
  }

  function BoxesOf(vs: seq<Val>): seq<nat> {
    Concat(seq(|vs|, i requires 0 <= i < |vs| => Boxes(vs[i])))
  }

  function Conts(v: Val): seq<nat> {
    match v
    case Tuple(items) => ContsOf(items)
    case Container(_, elements) => ContsOf(elements)
    case Cont(id, _) => [id]
    case _ => []
  }

  function ContsOf(vs: seq<Val>): seq<nat> {
    Concat(seq(|vs|, i requires 0 <= i < |vs| => Conts(vs[i])))
  }

  /** A type as the user writes it: boxes do not occur in it. */
  predicate Unboxed(t: Ty) {
    match t
    case BoxTy(_) => false
    case TupleTy(types) => forall i | 0 <= i < |types| :: Unboxed(types[i])
    case ContainerTy(e) => Unboxed(e)
    case _ => true
  }

  lemma {:induction false} UnboxedHasNoBoxes(v: Val)
    requires WellTyped(v) && Unboxed(TypeOf(v))
    ensures Boxes(v) == []
    decreases v
  {
    match v
    case Tuple(items) =>
      forall i | 0 <= i < |items| ensures Boxes(items[i]) == [] {
        assert TypesOf(items)[i] == TypeOf(items[i]);
        UnboxedHasNoBoxes(items[i]);
      }
      ConcatOfNothing(seq(|items|, i requires 0 <= i < |items| => Boxes(items[i])));
    case Container(_, elements) =>
      forall i | 0 <= i < |elements| ensures Boxes(elements[i]) == [] {
        UnboxedHasNoBoxes(elements[i]);
      }
      ConcatOfNothing(seq(|elements|, i requires 0 <= i < |elements| => Boxes(elements[i])));
    case _ =>
  }

  lemma {:induction false} ConcatOfNothing<T>(packs: seq<seq<T>>)
    requires forall i | 0 <= i < |packs| :: packs[i] == []
    ensures Concat(packs) == []
  {
    if packs != [] {
      ConcatOfNothing(packs[1..]);
    }
  }

  lemma {:induction false} UnboxedIsNotUnpacked(m: Mapper, t: Ty)
    requires m.Unpacker? && Unboxed(t)
    ensures !Strict(m, t)
  {
    match t
    case TupleTy(types) =>
      if types != [] {
        UnboxedIsNotUnpacked(m, types[0]);
      }
    case ContainerTy(e) => UnboxedIsNotUnpacked(m, e);
    case _ =>
  }

  /** The boxed form of a type: packing never spreads. */
  function PackedType(t: Ty): Ty { StoredType(MapType(Packer, t)) }

  function Packed(v: Val): Val { StoredItem(MapValue(Packer, v)) }

  function PackedTypes(types: seq<Ty>): seq<Ty> {
    seq(|types|, i requires 0 <= i < |types| => PackedType(types[i]))
  }

  function PackedAll(vs: seq<Val>): seq<Val> {
    seq(|vs|, i requires 0 <= i < |vs| => Packed(vs[i]))
  }

  lemma {:induction false} FlatOfOnes<T>(ms: seq<Mapped<T>>, xs: seq<T>)
    requires |ms| == |xs| && forall i | 0 <= i < |ms| :: ms[i] == One(xs[i])
    ensures Flat(ms) == xs
  {
    if ms != [] {
      FlatOfOnes(ms[1..], xs[1..]);
    }
  }

  lemma {:induction false} PackingNeverSpreads(t: Ty)
    ensures MapType(Packer, t) == One(PackedType(t))
    ensures t.TupleTy? && Effective(Packer, t.types) ==> PackedType(t) == TupleTy(PackedTypes(t.types))
    decreases t
  {
    match t
    case TupleTy(types) =>
      forall i | 0 <= i < |types| ensures MapType(Packer, types[i]) == One(PackedType(types[i])) {
        PackingNeverSpreads(types[i]);
      }
      FlatOfOnes(MapTypes(Packer, types), PackedTypes(types));
    case ContainerTy(e) => PackingNeverSpreads(e);
    case _ =>
  }

  lemma {:induction false} PackingNeverSpreadsValues(v: Val)
    ensures MapValue(Packer, v) == One(Packed(v))
    ensures v.Tuple? && Effective(Packer, TypesOf(v.items)) ==> Packed(v) == Tuple(PackedAll(v.items))
    ensures v.Container? && Strict(Packer, v.element) ==>
              Packed(v) == Container(PackedType(v.element), PackedAll(v.elements))
    decreases v
  {
    match v
    case Tuple(items) =>
      forall i | 0 <= i < |items| ensures MapValue(Packer, items[i]) == One(Packed(items[i])) {
        PackingNeverSpreadsValues(items[i]);
      }
      FlatOfOnes(MapValues(Packer, items), PackedAll(items));
    case Container(e, elements) =>
      PackingNeverSpreads(e);
      forall i | 0 <= i < |elements| ensures MapValue(Packer, elements[i]) == One(Packed(elements[i])) {
        PackingNeverSpreadsValues(elements[i]);
      }
      assert StoredItems(MapValues(Packer, elements)) == PackedAll(elements);
    case _ =>
  }

  /** The gates agree: the unpacker is strict about a boxed type exactly where the packer was strict
      about the original one. */
  lemma {:induction false} GatesAgree(m: Mapper, t: Ty)
    requires m.Unpacker? && Unboxed(t)
    ensures Strict(m, PackedType(t)) <==> Strict(Packer, t)
    decreases t
  {
    PackingNeverSpreads(t);
    match t
    case TupleTy(types) =>
      forall i | 0 <= i < |types| ensures Strict(m, PackedType(types[i])) <==> Strict(Packer, types[i]) {
        GatesAgree(m, types[i]);
      }
      assert forall i | 0 <= i < |types| :: PackedTypes(types)[i] == PackedType(types[i]);
      if !Effective(Packer, types) {
        UnboxedIsNotUnpacked(m, t);
        if types != [] {
          assert !Strict(Packer, types[0]);
        }
      }
    case ContainerTy(e) =>
      GatesAgree(m, e);
      if !Strict(Packer, e) {
        UnboxedIsNotUnpacked(m, t);
      }
    case _ =>
  }

  lemma EffectiveAgrees(m: Mapper, types: seq<Ty>)
    requires m.Unpacker? && forall i | 0 <= i < |types| :: Unboxed(types[i])
    ensures Effective(m, PackedTypes(types)) <==> Effective(Packer, types)
    ensures !Effective(m, types)
  {
    var packed := PackedTypes(types);
    forall i | 0 <= i < |types| ensures Strict(m, packed[i]) <==> Strict(Packer, types[i]) {
      GatesAgree(m, types[i]);
    }
    forall i | 0 <= i < |types| ensures !Strict(m, types[i]) {
      UnboxedIsNotUnpacked(m, types[i]);
    }
    if Effective(Packer, types) {
      var i :| 0 <= i < |types| && Strict(Packer, types[i]);
      assert Strict(m, packed[i]);
    }
  }

  lemma {:induction false} PackedTypesAgree(vs: seq<Val>)
    requires forall i | 0 <= i < |vs| :: WellTyped(vs[i])
    ensures TypesOf(PackedAll(vs)) == PackedTypes(TypesOf(vs))
  {
    forall i | 0 <= i < |vs| ensures TypeOf(Packed(vs[i])) == PackedType(TypeOf(vs[i])) {
      PackedTypeAgrees(vs[i]);
    }
  }

  lemma PackedTypeAgrees(v: Val)
    requires WellTyped(v)
    ensures TypeOf(Packed(v)) == PackedType(TypeOf(v)) && WellTyped(Packed(v))
  {
    MappingPreservesTypes(Packer, v);
    PackingNeverSpreadsValues(v);
    PackingNeverSpreads(TypeOf(v));
  }

  /** Each box that packing creates is for a continuable it visited, in the same order; and the second
      pass, which dispatches or unboxes, visits exactly these boxes, each once. */
  lemma {:induction false} BoxesAreDispatched(m: Mapper, v: Val)
    requires m.Unpacker? && WellTyped(v) && Unboxed(TypeOf(v))
    ensures Boxes(Packed(v)) == Visited(Packer, v)
    ensures Visited(m, Packed(v)) == Boxes(Packed(v))
    decreases v
  {
    PackingNeverSpreadsValues(v);
    match v
    case Tuple(items) =>
      forall i | 0 <= i < |items| ensures Unboxed(TypeOf(items[i])) {
        assert TypesOf(items)[i] == TypeOf(items[i]);
      }
      EffectiveAgrees(m, TypesOf(items));
      if Effective(Packer, TypesOf(items)) {
        PackedTypesAgree(items);
        AllBoxesAreDispatched(m, items);
      } else {
        UnboxedHasNoBoxes(v);
      }
    case Container(e, elements) =>
      GatesAgree(m, e);
      if Strict(Packer, e) {
        AllBoxesAreDispatched(m, elements);
      } else {
        UnboxedHasNoBoxes(v);
        UnboxedIsNotUnpacked(m, e);
      }
    case _ =>
  }

  lemma {:induction false} AllBoxesAreDispatched(m: Mapper, vs: seq<Val>)
    requires m.Unpacker? && forall i | 0 <= i < |vs| :: WellTyped(vs[i]) && Unboxed(TypeOf(vs[i]))
    ensures BoxesOf(PackedAll(vs)) == VisitedAll(Packer, vs)
    ensures VisitedAll(m, PackedAll(vs)) == BoxesOf(PackedAll(vs))
    decreases vs
  {
    var packed := PackedAll(vs);
    forall i | 0 <= i < |vs|
      ensures Boxes(packed[i]) == Visited(Packer, vs[i]) && Visited(m, packed[i]) == Boxes(packed[i])
    {
      BoxesAreDispatched(m, vs[i]);
    }
    assert seq(|packed|, i requires 0 <= i < |packed| => Boxes(packed[i]))
        == seq(|vs|, i requires 0 <= i < |vs| => Visited(Packer, vs[i]))
        == seq(|packed|, i requires 0 <= i < |packed| => Visited(m, packed[i]));
  }

  /** The boxed pack as the resumable traversal sees it: it accepts boxes, and enters everything. */
  function AsPack(v: Val): Async.Pack {
    match v
    case Tuple(items) => Async.Tuple(AsPacks(items))
    case Container(_, elements) => Async.Container(AsPacks(elements))
    case Box(id, _) => Async.Element(id)
    case _ => Async.Skipped
  }

  function AsPacks(vs: seq<Val>): seq<Async.Pack> {
    seq(|vs|, i requires 0 <= i < |vs| => AsPack(vs[i]))
  }

  /** The resumable traversal, which has no gate, visits the same boxes. */
  lemma {:induction false} ResumableTraversalVisitsBoxes(v: Val)
    ensures Async.Elements(AsPack(v)) == Boxes(v)
    decreases v, 0
  {
    match v
    case Tuple(items) => ResumableTraversalVisitsAllBoxes(items);
    case Container(_, elements) => ResumableTraversalVisitsAllBoxes(elements);
    case _ =>
  }

  lemma {:induction false} ResumableTraversalVisitsAllBoxes(vs: seq<Val>)
    ensures Async.ElementsOf(AsPacks(vs)) == BoxesOf(vs)
    decreases vs, 1
  {
    if vs != [] {
      ResumableTraversalVisitsBoxes(vs[0]);
      ResumableTraversalVisitsAllBoxes(vs[1..]);
      assert AsPacks(vs)[1..] == AsPacks(vs[1..]);
      assert seq(|vs|, i requires 0 <= i < |vs| => Boxes(vs[i]))[1..]
          == seq(|vs[1..]|, i requires 0 <= i < |vs[1..]| => Boxes(vs[1..][i]));
    }
  }

  // ---------------------------------------------------------------------------------------
  // Which continuables the gate lets through
  // ---------------------------------------------------------------------------------------

  predicate HasCont(t: Ty) {
    match t
    case ContTy(_) => true
    case TupleTy(types) => exists i :: 0 <= i < |types| && HasCont(types[i])
    case ContainerTy(e) => HasCont(e)
    case _ => false
  }

  /** What a type is made of in the end. */
  function LeafTypes(t: Ty): seq<Ty> {
    match t
    case TupleTy(types) =>
      if types == [] then [t] else Concat(seq(|types|, i requires 0 <= i < |types| => LeafTypes(types[i])))
    case ContainerTy(e) => LeafTypes(e)
    case _ => [t]
  }

  /** A type made of nothing but continuables. */
  predicate OnlyConts(t: Ty) { forall l | l in LeafTypes(t) :: l.ContTy? }

  predicate SomeOnlyConts(types: seq<Ty>) { exists i :: 0 <= i < |types| && OnlyConts(types[i]) }

  lemma {:induction false} LeafTypeOfTuple(types: seq<Ty>, l: Ty)
    requires types != []
    ensures l in LeafTypes(TupleTy(types)) <==> exists i :: 0 <= i < |types| && l in LeafTypes(types[i])
  {
    var packs := seq(|types|, i requires 0 <= i < |types| => LeafTypes(types[i]));
    InConcat(packs, l);
    if i :| 0 <= i < |packs| && l in packs[i] {
      assert l in LeafTypes(types[i]);
    }
    if i :| 0 <= i < |types| && l in LeafTypes(types[i]) {
      assert l in packs[i];
    }
  }

  /** The strict matcher accepts exactly the types that are made of nothing but continuables. */
  lemma {:induction false} StrictIffOnlyConts(t: Ty)
    ensures Strict(Packer, t) <==> OnlyConts(t)
    decreases t
  {
    match t
    case TupleTy(types) =>
      if types == [] {
        assert t in LeafTypes(t);
      } else {
        forall i | 0 <= i < |types| ensures Strict(Packer, types[i]) <==> OnlyConts(types[i]) {
          StrictIffOnlyConts(types[i]);
        }
        forall l ensures l in LeafTypes(t) <==> exists i :: 0 <= i < |types| && l in LeafTypes(types[i]) {
          LeafTypeOfTuple(types, l);
        }
      }
    case ContainerTy(e) => StrictIffOnlyConts(e);
    case _ => assert t in LeafTypes(t);
  }

  /** A tuple is entered exactly if one of its elements is made of nothing but continuables. */
  lemma EnteredIff(types: seq<Ty>)
    ensures Effective(Packer, types) <==> SomeOnlyConts(types)
  {
    forall i | 0 <= i < |types| ensures Strict(Packer, types[i]) <==> OnlyConts(types[i]) {
      StrictIffOnlyConts(types[i]);
    }
  }

  /** Where continuables occur, the gates are open: some element of the tuple is made of nothing but
      continuables, and the element type of a container is. */
  predicate Open(t: Ty) {
    HasCont(t) ==>
      match t
      case TupleTy(types) => SomeOnlyConts(types) && forall i | 0 <= i < |types| :: Open(types[i])
      case ContainerTy(e) => OnlyConts(e)
      case _ => true
  }

  lemma GateOf(t: Ty)
    ensures t.TupleTy? ==> (Effective(Packer, t.types) <==> SomeOnlyConts(t.types))
    ensures t.ContainerTy? ==> (Strict(Packer, t.element) <==> OnlyConts(t.element))
  {
    if t.TupleTy? {
      EnteredIff(t.types);
    } else if t.ContainerTy? {
      StrictIffOnlyConts(t.element);
    }
  }

  lemma {:induction false} StrictMeansOpen(t: Ty)
    requires Strict(Packer, t)
    ensures HasCont(t) && Open(t) && !HasCont(PackedType(t))
    decreases t
  {
    GateOf(t);
    PackingNeverSpreads(t);
    match t
    case TupleTy(types) =>
      assert Strict(Packer, types[0]);
      forall i | 0 <= i < |types| ensures HasCont(types[i]) && Open(types[i]) && !HasCont(PackedTypes(types)[i]) {
        StrictMeansOpen(types[i]);
      }
      assert HasCont(types[0]);
    case ContainerTy(e) => StrictMeansOpen(e);
    case _ =>
  }

  /** The exact condition under which every continuable of a pack is boxed, and with that dispatched:
      the gates are open wherever continuables occur. */
  lemma {:induction false} AllBoxedIffOpen(t: Ty)
    ensures !HasCont(PackedType(t)) <==> Open(t)
    decreases t
  {
    GateOf(t);
    PackingNeverSpreads(t);
    match t
    case TupleTy(types) =>
      forall i | 0 <= i < |types|
        ensures !HasCont(PackedTypes(types)[i]) <==> Open(types[i])
        ensures Strict(Packer, types[i]) ==> HasCont(types[i])
      {
        AllBoxedIffOpen(types[i]);
        if Strict(Packer, types[i]) {
          StrictMeansOpen(types[i]);
        }
      }
      if Effective(Packer, types) {
        if Open(t) {
          assert forall i | 0 <= i < |types| :: Open(types[i]);
        } else {
          var i :| 0 <= i < |types| && !Open(types[i]);
          assert HasCont(PackedTypes(types)[i]);
        }
      }
    case ContainerTy(e) =>
      AllBoxedIffOpen(e);
      if Strict(Packer, e) {
        StrictMeansOpen(e);
      }
    case _ =>
  }

  /** `std::make_tuple(1, c)`. */
  function Pair(id: nat): Val { Tuple([Plain(0, 1), Cont(id, [0])]) }

  lemma PairType(id: nat)
    ensures TypeOf(Pair(id)) == TupleTy([PlainTy(0), ContTy([0])])
    ensures HasCont(TypeOf(Pair(id))) && Conts(Pair(id)) == [id]
    ensures forall m: Mapper :: !Strict(m, TypeOf(Pair(id)))
  {
    var x, y := Plain(0, 1), Cont(id, [0]);
    var items := Pair(id).items;
    assert items[0] == x && items[1] == y;
    assert TypeOf(x) == PlainTy(0) && TypeOf(y) == ContTy([0]) && Conts(x) == [] && Conts(y) == [id];
    var types := TypesOf(items);
    assert |types| == 2 && types[0] == PlainTy(0) && types[1] == ContTy([0]);
    assert HasCont(types[1]);
    assert forall m: Mapper :: !Strict(m, types[0]);
    var conts: seq<seq<nat>> := seq(2, i requires 0 <= i < 2 => Conts(items[i]));
    var tail: seq<seq<nat>> := conts[1..];
    assert |conts[0]| == 0 && conts[1] == [id] && tail == [[id]] && |tail[1..]| == 0;
    assert Concat(tail) == [id] && Concat(conts) == [id];
    assert Conts(Pair(id)) == ContsOf(items) == Concat(conts);
  }

  /** `when_all(std::make_tuple(1, c))`: no gate opens, nothing is boxed or dispatched, and the callback
      is handed the tuple with the continuable still in it. */
  lemma NestedContinuableIsMissed(id: nat, result: (nat, nat) -> int)
    ensures var pack := Tuple([Pair(id)]);
            && Conts(pack) == [id] && Visited(Packer, pack) == [] && Packed(pack) == pack
            && Delivered(result, Packed(pack)) == [Pair(id)]
            && !Open(TypeOf(pack))
  {
    var pack := Tuple([Pair(id)]);
    var types := TypesOf(pack.items);
    PairType(id);
    GateOf(TypeOf(pack));
    assert |types| == 1 && types[0] == TypeOf(Pair(id)) && HasCont(types[0]);
    var conts: seq<seq<nat>> := seq(1, i requires 0 <= i < 1 => Conts(pack.items[i]));
    assert conts[0] == [id] && |conts[1..]| == 0;
    assert Conts(pack) == Concat(conts);
  }

  /** With open gates every continuable is visited, once and in order. */
  lemma {:induction false} OpenGatesVisitAll(v: Val)
    requires WellTyped(v) && Open(TypeOf(v))
    ensures Visited(Packer, v) == Conts(v)
    decreases v
  {
    GateOf(TypeOf(v));
    match v
    case Tuple(items) =>
      if HasCont(TypeOf(v)) {
        forall i | 0 <= i < |items| ensures Visited(Packer, items[i]) == Conts(items[i]) {
          assert TypesOf(items)[i] == TypeOf(items[i]);
          OpenGatesVisitAll(items[i]);
        }
        assert seq(|items|, i requires 0 <= i < |items| => Visited(Packer, items[i]))
            == seq(|items|, i requires 0 <= i < |items| => Conts(items[i]));
      } else {
        NoContinuables(v);
      }
    case Container(e, elements) =>
      if HasCont(e) {
        StrictMeansOpen(e);
        forall i | 0 <= i < |elements| ensures Visited(Packer, elements[i]) == Conts(elements[i]) {
          OpenGatesVisitAll(elements[i]);
        }
        assert seq(|elements|, i requires 0 <= i < |elements| => Visited(Packer, elements[i]))
            == seq(|elements|, i requires 0 <= i < |elements| => Conts(elements[i]));
      } else {
        NoContinuables(v);
      }
    case _ =>
  }

  /** Without continuables in a type there are none in its values, and no gate opens. */
  lemma {:induction false} NoContinuables(v: Val)
    requires WellTyped(v) && !HasCont(TypeOf(v))
    ensures Conts(v) == [] && Visited(Packer, v) == [] && Packed(v) == v
    decreases v
  {
    match v
    case Tuple(items) =>
      forall i | 0 <= i < |items| ensures Conts(items[i]) == [] && !Strict(Packer, TypesOf(items)[i]) {
        assert TypesOf(items)[i] == TypeOf(items[i]);
        NoContinuables(items[i]);
        if Strict(Packer, TypeOf(items[i])) {
          StrictMeansOpen(TypeOf(items[i]));
        }
      }
      ConcatOfNothing(seq(|items|, i requires 0 <= i < |items| => Conts(items[i])));
    case Container(e, elements) =>
      if Strict(Packer, e) {
        StrictMeansOpen(e);
      }
      forall i | 0 <= i < |elements| ensures Conts(elements[i]) == [] {
        NoContinuables(elements[i]);
      }
      ConcatOfNothing(seq(|elements|, i requires 0 <= i < |elements| => Conts(elements[i])));
    case _ =>
  }

  // ---------------------------------------------------------------------------------------
  // What is visited
  // ---------------------------------------------------------------------------------------

  /** A continuable occurs in a value behind nothing but open gates. */
  ghost predicate Reaches(v: Val, id: nat) {
    match v
    case Cont(c, _) => c == id
    case Tuple(items) =>
      (exists i :: 0 <= i < |items| && OnlyConts(TypeOf(items[i])))
      && exists i :: 0 <= i < |items| && Reaches(items[i], id)
    case Container(e, elements) => OnlyConts(e) && exists i :: 0 <= i < |elements| && Reaches(elements[i], id)
    case _ => false
  }

  lemma InVisitedAll(vs: seq<Val>, id: nat)
    ensures id in VisitedAll(Packer, vs) <==> exists i :: 0 <= i < |vs| && id in Visited(Packer, vs[i])
  {
    var packs := seq(|vs|, i requires 0 <= i < |vs| => Visited(Packer, vs[i]));
    InConcat(packs, id);
    if i :| 0 <= i < |packs| && id in packs[i] {
      assert id in Visited(Packer, vs[i]);
    }
    if i :| 0 <= i < |vs| && id in Visited(Packer, vs[i]) {
      assert id in packs[i];
    }
  }

  /** Which continuables of a value are visited, exactly: those that occur in no other tuples than ones
      with an element made of nothing but continuables, and in no other containers than ones of such
      elements. */
  lemma {:induction false} VisitedIffReached(v: Val, id: nat)
    ensures id in Visited(Packer, v) <==> Reaches(v, id)
    decreases v
  {
    GateOf(TypeOf(v));
    match v
    case Tuple(items) =>
      InVisitedAll(items, id);
      assert SomeOnlyConts(TypesOf(items)) <==> exists i :: 0 <= i < |items| && OnlyConts(TypeOf(items[i])) by {
        assert forall i | 0 <= i < |items| :: TypesOf(items)[i] == TypeOf(items[i]);
      }
      forall i | 0 <= i < |items| ensures id in Visited(Packer, items[i]) <==> Reaches(items[i], id) {
        VisitedIffReached(items[i], id);
      }
    case Container(e, elements) =>
      InVisitedAll(elements, id);
      forall i | 0 <= i < |elements| ensures id in Visited(Packer, elements[i]) <==> Reaches(elements[i], id) {
        VisitedIffReached(elements[i], id);
      }
    case _ =>
  }

  /** A continuable that is an element of a tuple is visited, whatever is beside it. */
  lemma ElementIsVisited(items: seq<Val>, i: nat)
    requires i < |items| && items[i].Cont?
    ensures items[i].id in Visited(Packer, Tuple(items))
  {
    VisitedIffReached(Tuple(items), items[i].id);
    assert LeafTypes(TypeOf(items[i])) == [TypeOf(items[i])];
    assert OnlyConts(TypeOf(items[i])) && Reaches(items[i], items[i].id);
  }

  /** So is one in a container of continuables, whatever is beside that. */
  lemma ContainerElementIsVisited(items: seq<Val>, i: nat, j: nat)
    requires i < |items| && items[i].Container? && items[i].element.ContTy?
    requires j < |items[i].elements| && items[i].elements[j].Cont?
    ensures items[i].elements[j].id in Visited(Packer, Tuple(items))
  {
    var c := items[i].elements[j];
    VisitedIffReached(Tuple(items), c.id);
    assert LeafTypes(TypeOf(items[i])) == [items[i].element] && OnlyConts(TypeOf(items[i]));
    assert Reaches(c, c.id) && Reaches(items[i], c.id);
  }

  lemma InConts(vs: seq<Val>, id: nat)
    ensures id in ContsOf(vs) <==> exists i :: 0 <= i < |vs| && id in Conts(vs[i])
  {
    var packs := seq(|vs|, i requires 0 <= i < |vs| => Conts(vs[i]));
    InConcat(packs, id);
    if i :| 0 <= i < |packs| && id in packs[i] {
      assert id in Conts(vs[i]);
    }
    if i :| 0 <= i < |vs| && id in Conts(vs[i]) {
      assert id in packs[i];
    }
  }

  lemma {:induction false} VisitedAreConts(v: Val, id: nat)
    requires id in Visited(Packer, v)
    ensures id in Conts(v)
    decreases v
  {
    match v
    case Tuple(items) =>
      InVisitedAll(items, id);
      InConts(items, id);
      var i :| 0 <= i < |items| && id in Visited(Packer, items[i]);
      VisitedAreConts(items[i], id);
    case Container(_, elements) =>
      InVisitedAll(elements, id);
      InConts(elements, id);
      var i :| 0 <= i < |elements| && id in Visited(Packer, elements[i]);
      VisitedAreConts(elements[i], id);
    case _ =>
  }
}
