/** Split promises: one promise that resolves several others, which may be split promises themselves or
    containers of promises, and may be empty. */
module Splitting {
  import opened Results

  /** A promise: a single one, which can be invalid (moved from, or a default constructed function); a
      split one; or, inside a split promise, a tuple or container of promises. */
  datatype Promise =
    | Single(id: nat, valid: bool)
    | Split(first: Promise, promises: seq<Promise>)
    | Group(members: seq<Promise>)

  /** A single promise that is resolved, and with what. */
  datatype Delivery = Delivery(id: nat, outcome: Outcome)

  /** `operator bool`, and `true` for what does not have one. The promises of a group are looked at one
      by one. */
  predicate IsValid(p: Promise) {
    match p
    case Single(_, valid) => valid
    case Split(first, promises) => IsValid(first) || AnyValid(promises)
    case Group(members) => AnyValid(members)
  }

  predicate AnyValid(ps: seq<Promise>) {
    exists i :: 0 <= i < |ps| && IsValid(ps[i])
  }

  /** The call operator: the other promises first, then the first one, each only if it is valid. */
  function Resolved(p: Promise, o: Outcome): seq<Delivery> {
    match p
    case Single(id, _) => [Delivery(id, o)]
    case Split(first, promises) => ResolvedAll(promises, o) + if IsValid(first) then Resolved(first, o) else []
    case Group(members) => ResolvedAll(members, o)
  }

  function ResolvedAll(ps: seq<Promise>, o: Outcome): seq<Delivery> {
    if ps == [] then []
    else (if IsValid(ps[0]) then Resolved(ps[0], o) else []) + ResolvedAll(ps[1..], o)
  }

  /** How often a valid single promise occurs in a tree. */
  function ValidLeaves(p: Promise, id: nat): nat {
    match p
    case Single(i, valid) => if valid && i == id then 1 else 0
    case Split(first, promises) => ValidLeaves(first, id) + ValidLeavesOf(promises, id)
    case Group(members) => ValidLeavesOf(members, id)
  }

  function ValidLeavesOf(ps: seq<Promise>, id: nat): nat {
    if ps == [] then 0 else ValidLeaves(ps[0], id) + ValidLeavesOf(ps[1..], id)
  }

  /** How often a single promise was resolved with an outcome. */
  function Count(ds: seq<Delivery>, d: Delivery): nat {
    if ds == [] then 0 else (if ds[0] == d then 1 else 0) + Count(ds[1..], d)
  }

  lemma {:induction false} CountSplits(xs: seq<Delivery>, ys: seq<Delivery>, d: Delivery)
    ensures Count(xs + ys, d) == Count(xs, d) + Count(ys, d)
  {
    if xs == [] {
      assert xs + ys == ys;
    } else {
      assert (xs + ys)[1..] == xs[1..] + ys;
      CountSplits(xs[1..], ys, d);
    }
  }

  /** A promise is valid if and only if some single promise in its tree is. */
  lemma {:induction false} ValidIffSomeLeafIs(p: Promise)
    ensures IsValid(p) <==> exists id :: ValidLeaves(p, id) > 0
    decreases p, 0
  {
    match p
    case Single(id, valid) => assert valid ==> ValidLeaves(p, id) > 0;
    case Split(first, promises) =>
      ValidIffSomeLeafIs(first);
      AnyValidIffSomeLeafIs(promises);
      if IsValid(first) {
        var id :| ValidLeaves(first, id) > 0;
        assert ValidLeaves(p, id) > 0;
      } else if AnyValid(promises) {
        var id :| ValidLeavesOf(promises, id) > 0;
        assert ValidLeaves(p, id) > 0;
      } else {
        forall id
          ensures ValidLeaves(p, id) == 0
        {
          assert !(ValidLeaves(first, id) > 0) && !(ValidLeavesOf(promises, id) > 0);
        }
      }
    case Group(members) =>
      AnyValidIffSomeLeafIs(members);
      if AnyValid(members) {
        var id :| ValidLeavesOf(members, id) > 0;
        assert ValidLeaves(p, id) > 0;
      } else {
        forall id
          ensures ValidLeaves(p, id) == 0
        {
          assert !(ValidLeavesOf(members, id) > 0);
        }
      }
  }

  lemma {:induction false} AnyValidIffSomeLeafIs(ps: seq<Promise>)
    ensures AnyValid(ps) <==> exists id :: ValidLeavesOf(ps, id) > 0
    decreases ps, 0
  {
    if ps != [] {
      ValidIffSomeLeafIs(ps[0]);
      AnyValidIffSomeLeafIs(ps[1..]);
      if i :| 0 <= i < |ps| && IsValid(ps[i]) {
        assert i > 0 ==> IsValid(ps[1..][i - 1]);
      }
      if i :| 0 <= i < |ps[1..]| && IsValid(ps[1..][i]) {
        assert IsValid(ps[i + 1]);
      }
      if id :| ValidLeaves(ps[0], id) > 0 {
        assert ValidLeavesOf(ps, id) > 0;
      }
      if id :| ValidLeavesOf(ps[1..], id) > 0 {
        assert ValidLeavesOf(ps, id) > 0;
      }
      if id :| ValidLeavesOf(ps, id) > 0 {
        assert ValidLeaves(ps[0], id) > 0 || ValidLeavesOf(ps[1..], id) > 0;
      }
    }
  }

  /** Resolving a split promise, valid or not, resolves every valid single promise of its tree exactly
      as often as it occurs there, with the given outcome, and resolves nothing else. */
  lemma {:induction false} EveryValidLeafIsResolvedOnce(p: Promise, o: Outcome, d: Delivery)
    requires IsValid(p) || !p.Single?
    ensures Count(Resolved(p, o), d) == if d.outcome == o then ValidLeaves(p, d.id) else 0
    decreases p, 1
  {
    match p
    case Single(id, _) => assert |[Delivery(id, o)][1..]| == 0;
    case Split(first, promises) =>
      AllValidLeavesAreResolvedOnce(promises, o, d);
      ValidIffSomeLeafIs(first);
      if IsValid(first) {
        EveryValidLeafIsResolvedOnce(first, o, d);
      } else {
        assert !(ValidLeaves(first, d.id) > 0);
      }
      CountSplits(ResolvedAll(promises, o), if IsValid(first) then Resolved(first, o) else [], d);
    case Group(members) => AllValidLeavesAreResolvedOnce(members, o, d);
  }

  lemma {:induction false} AllValidLeavesAreResolvedOnce(ps: seq<Promise>, o: Outcome, d: Delivery)
    ensures Count(ResolvedAll(ps, o), d) == if d.outcome == o then ValidLeavesOf(ps, d.id) else 0
    decreases ps, 0
  {
    if ps != [] {
      ValidIffSomeLeafIs(ps[0]);
      if IsValid(ps[0]) {
        EveryValidLeafIsResolvedOnce(ps[0], o, d);
      } else {
        assert !(ValidLeaves(ps[0], d.id) > 0);
      }
      AllValidLeavesAreResolvedOnce(ps[1..], o, d);
      CountSplits(if IsValid(ps[0]) then Resolved(ps[0], o) else [], ResolvedAll(ps[1..], o), d);
    }
  }

  /** The call operator, resolving promise after promise. */
  method Call(p: Promise, o: Outcome) returns (log: seq<Delivery>)
    ensures log == Resolved(p, o)
    decreases p, 1
  {
    match p
    case Single(id, _) =>
      log := [Delivery(id, o)];
    case Split(first, promises) =>
      log := CallAll(promises, o);
      var valid := OperatorBool(first);
      if valid {
        var last := Call(first, o);
        log := log + last;
      }
    case Group(members) =>
      log := CallAll(members, o);
  }

  /** The traversal of the stored promises. */
  method CallAll(ps: seq<Promise>, o: Outcome) returns (log: seq<Delivery>)
    ensures log == ResolvedAll(ps, o)
    decreases ps, 0
  {
    log := [];
    for i := 0 to |ps|
      invariant log + ResolvedAll(ps[i..], o) == ResolvedAll(ps, o)
    {
      assert ps[i..][0] == ps[i] && ps[i..][1..] == ps[i + 1..];
      var valid := OperatorBool(ps[i]);
      if valid {
        var more := Call(ps[i], o);
        Joins(log, more, ResolvedAll(ps[i + 1..], o));
        log := log + more;
      }
    }
  }

  /** `operator bool`: every stored promise is looked at, until one was found to be valid. */
  method OperatorBool(p: Promise) returns (isValid: bool)
    ensures isValid <==> IsValid(p)
    decreases p, 0
  {
    match p
    case Single(_, valid) =>
      isValid := valid;
    case Split(first, promises) =>
      isValid := OperatorBool(first);
      for i := 0 to |promises|
        invariant isValid <==> IsValid(first) || exists j :: 0 <= j < i && IsValid(promises[j])
      {
        if !isValid {
          isValid := OperatorBool(promises[i]);
        }
      }
    case Group(members) =>
      isValid := false;
      for i := 0 to |members|
        invariant isValid <==> exists j :: 0 <= j < i && IsValid(members[j])
      {
        if !isValid {
          isValid := OperatorBool(members[i]);
        }
      }
  }

  // ---------------------------------------------------------------------------------------
  // In which order
  // ---------------------------------------------------------------------------------------

  lemma {:induction false} Counted(ds: seq<Delivery>, a: nat)
    requires a < |ds|
    ensures Count(ds, ds[a]) > 0
  {
    if a > 0 {
      Counted(ds[1..], a - 1);
    }
  }

  /** What is in a log with the given outcome belongs to a valid single promise of the tree. */
  lemma LogIsOfLeaves(p: Promise, o: Outcome, a: nat)
    requires (IsValid(p) || !p.Single?) && a < |Resolved(p, o)|
    ensures ValidLeaves(p, Resolved(p, o)[a].id) > 0
  {
    Counted(Resolved(p, o), a);
    EveryValidLeafIsResolvedOnce(p, o, Resolved(p, o)[a]);
  }

  lemma {:induction false} LogIsOfSomeLeaves(ps: seq<Promise>, o: Outcome, a: nat)
    requires a < |ResolvedAll(ps, o)|
    ensures ValidLeavesOf(ps, ResolvedAll(ps, o)[a].id) > 0
  {
    Counted(ResolvedAll(ps, o), a);
    AllValidLeavesAreResolvedOnce(ps, o, ResolvedAll(ps, o)[a]);
  }

  /** A split promise resolves the promises it stores before the first one: a single promise that is only
      among those comes before one that is only in the first. */
  lemma StoredComeBeforeTheFirst(first: Promise, promises: seq<Promise>, o: Outcome, a: nat, b: nat)
    requires var log := Resolved(Split(first, promises), o);
             && a < |log| && b < |log|
             && ValidLeavesOf(promises, log[a].id) > 0 && ValidLeaves(first, log[a].id) == 0
             && ValidLeavesOf(promises, log[b].id) == 0 && ValidLeaves(first, log[b].id) > 0
    ensures a < b
  {
    var stored := ResolvedAll(promises, o);
    if a >= |stored| {
      LogIsOfLeaves(first, o, a - |stored|);
    }
    if b < |stored| {
      LogIsOfSomeLeaves(promises, o, b);
    }
  }

  /** The stored promises are resolved in order. */
  lemma {:induction false} StoredInOrder(xs: seq<Promise>, ys: seq<Promise>, o: Outcome, a: nat, b: nat)
    requires var log := ResolvedAll(xs + ys, o);
             && a < |log| && b < |log|
             && ValidLeavesOf(xs, log[a].id) > 0 && ValidLeavesOf(ys, log[a].id) == 0
             && ValidLeavesOf(xs, log[b].id) == 0 && ValidLeavesOf(ys, log[b].id) > 0
    ensures a < b
  {
    LogSplits(xs, ys, o);
    var stored := ResolvedAll(xs, o);
    if a >= |stored| {
      LogIsOfSomeLeaves(ys, o, a - |stored|);
    }
    if b < |stored| {
      LogIsOfSomeLeaves(xs, o, b);
    }
  }

  lemma {:induction false} LogSplits(xs: seq<Promise>, ys: seq<Promise>, o: Outcome)
    ensures ResolvedAll(xs + ys, o) == ResolvedAll(xs, o) + ResolvedAll(ys, o)
  {
    if xs == [] {
      assert xs + ys == ys;
    } else {
      assert (xs + ys)[1..] == xs[1..] + ys;
      LogSplits(xs[1..], ys, o);
    }
  }
}
