/** Nested connections at work, one atomic step at a time. Leaves resolve, callbacks of all connections
    count, assign and fail, callbacks of any connections race for the flag, all of them anywhere in the
    tree and in any interleaving, dispatches included. Whatever such a run delivers is what the
    connection means for some order of the leaves that resolved. */
module Interleaving {
  import opened Results
  import F = Flattening
  import Protocol = AllConnection

  /** What each leaf resolves with, if it does. */
  type Outcomes = nat -> F.Payload

  /** A connection at work: a leaf, an all connection in a state of its protocol, or an any connection
      with the callbacks that have arrived at its flag, in order. */
  datatype Net =
    | Leaf(id: nat, resolved: bool)
    | AllNode(kids: seq<Net>, protocol: Protocol.State)
    | AnyNode(alternatives: seq<Net>, arrived: seq<nat>)

  function Start(c: F.Conn): Net {
    match c
    case Leaf(id) => Leaf(id, false)
    case Node(s, kids) =>
      var nets := seq(|kids|, i requires 0 <= i < |kids| => Start(kids[i]));
      if s.All? then AllNode(nets, Protocol.Init(|kids|)) else AnyNode(nets, [])
  }

  function PayloadIn(o: Outcome): Option<F.Payload> {
    match o case Value(args) => Some(F.Values(args)) case Exception(e) => Some(F.Error(e)) case Empty => None
  }

  /** What the callback of a connection was called with. */
  function Delivered(net: Net, outcome: Outcomes): Option<F.Payload> {
    match net
    case Leaf(id, resolved) => if resolved then Some(outcome(id)) else None
    case AllNode(_, p) => if p.delivered == [] then None else PayloadIn(p.delivered[0])
    case AnyNode(kids, arrived) =>
      if arrived == [] || arrived[0] >= |kids| then None else Delivered(kids[arrived[0]], outcome)
  }

  /** An atomic step, and where in the tree it is made. */
  datatype Action = Resolve | Act(action: Protocol.Action) | Arrive(i: nat) | Below(kid: nat, step: Action)

  /** A partial callback gets what its kid delivered; any other step is made as the protocol allows. */
  predicate Enabled(net: Net, a: Action, outcome: Outcomes) {
    match net
    case Leaf(_, resolved) => a.Resolve? && !resolved
    case AllNode(kids, p) =>
      (match a
       case Act(x) =>
         && Protocol.Enabled(p, x)
         && (x.Assign? ==> x.i < |kids| && Delivered(kids[x.i], outcome) == Some(F.Values(x.args)))
         && (x.Fail? ==> x.i < |kids| && Delivered(kids[x.i], outcome) == Some(F.Error(x.error)))
       case Below(i, step) => i < |kids| && Enabled(kids[i], step, outcome)
       case _ => false)
    case AnyNode(kids, arrived) =>
      (match a
       case Arrive(i) => i < |kids| && i !in arrived && Delivered(kids[i], outcome).Some?
       case Below(i, step) => i < |kids| && Enabled(kids[i], step, outcome)
       case _ => false)
  }

  function Step(net: Net, a: Action, outcome: Outcomes): Net
    requires Enabled(net, a, outcome)
  {
    match net
    case Leaf(id, _) => Leaf(id, true)
    case AllNode(kids, p) =>
      if a.Act? then AllNode(kids, Protocol.Step(p, a.action))
      else AllNode(kids[a.kid := Step(kids[a.kid], a.step, outcome)], p)
    case AnyNode(kids, arrived) =>
      if a.Arrive? then AnyNode(kids, arrived + [a.i])
      else AnyNode(kids[a.kid := Step(kids[a.kid], a.step, outcome)], arrived)
  }

  function Run(net: Net, actions: seq<Action>, outcome: Outcomes): Option<Net>
    decreases |actions|
  {
    if actions == [] then Some(net)
    else if Enabled(net, actions[0], outcome) then Run(Step(net, actions[0], outcome), actions[1..], outcome)
    else None
  }

  // ---------------------------------------------------------------------------------------
  // The invariant
  // ---------------------------------------------------------------------------------------

  /** A box that is filled holds what its kid delivered; a failed callback got an exception. */
  ghost predicate KidAgrees(p: Protocol.State, i: nat, d: Option<F.Payload>) {
    && i < |p.roles| == |p.boxes|
    && (p.boxes[i].Some? ==> d == Some(F.Values(p.boxes[i].value)))
    && (p.roles[i].Failed? ==> d.Some? && d.value.Error?)
  }

  /** A delivered exception came from a kid. */
  ghost predicate Caused(p: Protocol.State, kids: seq<Net>, outcome: Outcomes) {
    p.delivered != [] && p.delivered[0].Exception? ==>
      exists k :: 0 <= k < |kids| && Delivered(kids[k], outcome) == Some(F.Error(p.delivered[0].error))
  }

  ghost predicate Inv(c: F.Conn, net: Net, outcome: Outcomes) {
    match c
    case Leaf(id) => net.Leaf? && net.id == id
    case Node(s, conns) =>
      if s.All? then
        && net.AllNode? && |net.kids| == |conns| == |net.protocol.roles|
        && Protocol.Inv(net.protocol) && Caused(net.protocol, net.kids, outcome)
        && forall i | 0 <= i < |conns| ::
             Inv(conns[i], net.kids[i], outcome) && KidAgrees(net.protocol, i, Delivered(net.kids[i], outcome))
      else
        && net.AnyNode? && |net.alternatives| == |conns|
        && (forall i | i in net.arrived :: i < |conns| && Delivered(net.alternatives[i], outcome).Some?)
        && forall i | 0 <= i < |conns| :: Inv(conns[i], net.alternatives[i], outcome)
  }

  lemma {:induction false} StartInv(c: F.Conn, outcome: Outcomes)
    ensures Inv(c, Start(c), outcome)
  {
    if c.Node? {
      forall i | 0 <= i < |c.kids| ensures Inv(c.kids[i], Start(c.kids[i]), outcome) {
        StartInv(c.kids[i], outcome);
      }
      Protocol.InitEstablishesInv(|c.kids|);
    }
  }

  /** What a step of the protocol does to one callback, and to what was delivered. */
  lemma ActKeepsKid(p: Protocol.State, x: Protocol.Action, i: nat, d: Option<F.Payload>)
    requires Protocol.Inv(p) && Protocol.Enabled(p, x) && KidAgrees(p, i, d)
    requires x.Assign? && x.i == i ==> d == Some(F.Values(x.args))
    requires x.Fail? && x.i == i ==> d == Some(F.Error(x.error))
    ensures KidAgrees(Protocol.Step(p, x), i, d)
  {
  }

  lemma ActDelivers(p: Protocol.State, x: Protocol.Action)
    requires Protocol.Inv(p) && Protocol.Enabled(p, x)
    ensures var q := Protocol.Step(p, x);
            && |q.roles| == |p.roles|
            && (p.delivered != [] ==> q.delivered == p.delivered)
            && (p.delivered == [] && q.delivered != [] && q.delivered[0].Exception? ==>
                  x.Fail? && q.delivered[0].error == x.error)
  {
  }

  lemma {:induction false} StepKeepsInv(c: F.Conn, net: Net, a: Action, outcome: Outcomes)
    requires Inv(c, net, outcome) && Enabled(net, a, outcome)
    ensures Inv(c, Step(net, a, outcome), outcome)
    ensures Delivered(net, outcome).Some? ==> Delivered(Step(net, a, outcome), outcome) == Delivered(net, outcome)
    decreases c
  {
    match net
    case Leaf(_, _) =>
    case AllNode(kids, p) =>
      if a.Act? {
        AllStepKeepsInv(c, net, a.action, outcome);
      } else {
        StepKeepsInv(c.kids[a.kid], kids[a.kid], a.step, outcome);
        KidStepKeepsInv(c, net, a, outcome);
      }
    case AnyNode(kids, _) =>
      if a.Below? {
        StepKeepsInv(c.kids[a.kid], kids[a.kid], a.step, outcome);
      }
  }

  lemma AllStepKeepsInv(c: F.Conn, net: Net, x: Protocol.Action, outcome: Outcomes)
    requires net.AllNode? && Inv(c, net, outcome) && Enabled(net, Act(x), outcome)
    ensures Inv(c, Step(net, Act(x), outcome), outcome)
    ensures Delivered(net, outcome).Some? ==>
              Delivered(Step(net, Act(x), outcome), outcome) == Delivered(net, outcome)
  {
    var p, kids := net.protocol, net.kids;
    Protocol.StepPreservesInv(p, x);
    ActDelivers(p, x);
    forall i | 0 <= i < |kids| ensures KidAgrees(Protocol.Step(p, x), i, Delivered(kids[i], outcome)) {
      ActKeepsKid(p, x, i, Delivered(kids[i], outcome));
    }
  }

  lemma KidStepKeepsInv(c: F.Conn, net: Net, a: Action, outcome: Outcomes)
    requires net.AllNode? && Inv(c, net, outcome) && Enabled(net, a, outcome) && a.Below?
    requires var kid := net.kids[a.kid];
             var kid' := Step(kid, a.step, outcome);
             && Inv(c.kids[a.kid], kid', outcome)
             && (Delivered(kid, outcome).Some? ==> Delivered(kid', outcome) == Delivered(kid, outcome))
    ensures Inv(c, Step(net, a, outcome), outcome)
  {
    var kids, kids' := net.kids, Step(net, a, outcome).kids;
    forall i | 0 <= i < |kids|
      ensures Delivered(kids[i], outcome).Some? ==> Delivered(kids'[i], outcome) == Delivered(kids[i], outcome)
    {
      assert i != a.kid ==> kids'[i] == kids[i];
    }
    if net.protocol.delivered != [] && net.protocol.delivered[0].Exception? {
      var k :| 0 <= k < |kids| && Delivered(kids[k], outcome) == Some(F.Error(net.protocol.delivered[0].error));
      assert Delivered(kids'[k], outcome) == Delivered(kids[k], outcome);
    }
  }

  lemma {:induction false} RunKeepsInv(c: F.Conn, net: Net, actions: seq<Action>, outcome: Outcomes)
    requires Inv(c, net, outcome) && Run(net, actions, outcome).Some?
    ensures Inv(c, Run(net, actions, outcome).value, outcome)
    decreases |actions|
  {
    if actions != [] {
      StepKeepsInv(c, net, actions[0], outcome);
      RunKeepsInv(c, Step(net, actions[0], outcome), actions[1..], outcome);
    }
  }

  // ---------------------------------------------------------------------------------------
  // Orders of leaves
  // ---------------------------------------------------------------------------------------

  function Leaves(c: F.Conn): set<nat> {
    match c
    case Leaf(id) => {id}
    case Node(_, kids) => set i, id | 0 <= i < |kids| && id in Leaves(kids[i]) :: id
  }

  /** A leaf occurs once. */
  ghost predicate Linear(c: F.Conn) {
    c.Node? ==>
      && (forall i | 0 <= i < |c.kids| :: Linear(c.kids[i]))
      && (forall i, j | 0 <= i < j < |c.kids| :: Leaves(c.kids[i]) !! Leaves(c.kids[j]))
  }

  function Kids(net: Net): seq<Net> {
    match net case Leaf(_, _) => [] case AllNode(kids, _) => kids case AnyNode(kids, _) => kids
  }

  /** The leaves that have resolved. */
  function Resolved(net: Net): set<nat> {
    if net.Leaf? then if net.resolved then {net.id} else {}
    else set i, id | 0 <= i < |Kids(net)| && id in Resolved(Kids(net)[i]) :: id
  }

  /** Leaves that resolve one after another. */
  function Events(order: seq<nat>, outcome: Outcomes): seq<F.Event> {
    seq(|order|, i requires 0 <= i < |order| => F.Event(map[order[i] := outcome(order[i])]))
  }

  function PayloadOf(f: Option<F.Fired>): Option<F.Payload> {
    if f.Some? then Some(f.value.payload) else None
  }

  function Meaning(c: F.Conn, order: seq<nat>, outcome: Outcomes): Option<F.Fired> {
    F.Meaning(c, Events(order, outcome))
  }

  predicate NoRepeat(order: seq<nat>) { forall i, j | 0 <= i < j < |order| :: order[i] != order[j] }

  /** No leaf of the connection is among these. */
  ghost predicate Apart(c: F.Conn, order: seq<nat>) { forall id | id in order :: id !in Leaves(c) }

  lemma EventsSplit(a: seq<nat>, b: seq<nat>, outcome: Outcomes)
    ensures Events(a + b, outcome) == Events(a, outcome) + Events(b, outcome)
  {
  }

  lemma {:induction false} FirstApart(id: nat, order: seq<nat>, outcome: Outcomes)
    requires id !in order
    ensures F.First(id, Events(order, outcome)).None?
  {
    if order != [] {
      var init := order[..|order| - 1];
      FirstApart(id, init, outcome);
      assert Events(order, outcome)[..|order| - 1] == Events(init, outcome);
      assert order[|order| - 1] in order;
    }
  }

  function Shift(f: Option<F.Fired>, n: nat): Option<F.Fired> {
    if f.None? then None else Some(F.Fired(f.value.at + n, f.value.payload))
  }

  function ShiftAll(ds: seq<Option<F.Fired>>, n: nat): seq<Option<F.Fired>> {
    seq(|ds|, i requires 0 <= i < |ds| => Shift(ds[i], n))
  }

  lemma FirstSnoc(id: nat, order: seq<nat>, last: nat, outcome: Outcomes)
    ensures F.First(id, Events(order + [last], outcome)) ==
              if F.First(id, Events(order, outcome)).Some? then F.First(id, Events(order, outcome))
              else if id == last then Some(F.Fired(|order|, outcome(id))) else None
  {
    assert Events(order + [last], outcome)[..|order|] == Events(order, outcome);
  }

  lemma {:induction false} FirstShift(id: nat, a: seq<nat>, b: seq<nat>, outcome: Outcomes)
    requires id !in a
    ensures F.First(id, Events(a + b, outcome)) == Shift(F.First(id, Events(b, outcome)), |a|)
    decreases |b|
  {
    if b == [] {
      assert a + b == a;
      FirstApart(id, a, outcome);
    } else {
      var init, last := b[..|b| - 1], b[|b| - 1];
      assert a + b == (a + init) + [last] && b == init + [last];
      FirstShift(id, a, init, outcome);
      FirstSnoc(id, a + init, last, outcome);
      FirstSnoc(id, init, last, outcome);
    }
  }

  lemma {:induction false} EveryShift(ds: seq<Option<F.Fired>>, n: nat)
    requires ds != []
    ensures F.Every(ShiftAll(ds, n)) == Shift(F.Every(ds), n)
  {
    F.BothUnit(ds[0]);
    F.BothUnit(Shift(ds[0], n));
    if |ds| > 1 {
      EveryShift(ds[1..], n);
      assert ShiftAll(ds, n)[1..] == ShiftAll(ds[1..], n);
    } else {
      assert ds[1..] == [] && ShiftAll(ds, n)[1..] == [];
    }
  }

  lemma {:induction false} EarliestShift(ds: seq<Option<F.Fired>>, n: nat)
    ensures F.Earliest(ShiftAll(ds, n)) == Shift(F.Earliest(ds), n)
  {
    if ds != [] {
      EarliestShift(ds[1..], n);
      assert ShiftAll(ds, n)[1..] == ShiftAll(ds[1..], n);
    }
  }

  /** Leaves of others that resolve before only take time. */
  lemma {:induction false} MeaningShift(c: F.Conn, a: seq<nat>, b: seq<nat>, outcome: Outcomes)
    requires F.Proper(c) && Apart(c, a)
    ensures Meaning(c, a + b, outcome) == Shift(Meaning(c, b, outcome), |a|)
    decreases c
  {
    match c
    case Leaf(id) => FirstShift(id, a, b, outcome);
    case Node(s, kids) =>
      var ds, ds' := F.Meanings(kids, Events(b, outcome)), F.Meanings(kids, Events(a + b, outcome));
      forall i | 0 <= i < |kids| ensures ds'[i] == Shift(ds[i], |a|) {
        assert Leaves(kids[i]) <= Leaves(c);
        MeaningShift(kids[i], a, b, outcome);
      }
      assert ds' == ShiftAll(ds, |a|);
      EveryShift(ds, |a|);
      EarliestShift(ds, |a|);
  }

  /** Leaves of others that resolve afterwards do not matter. */
  lemma {:induction false} MeaningIgnores(c: F.Conn, a: seq<nat>, b: seq<nat>, outcome: Outcomes)
    requires Apart(c, b)
    ensures Meaning(c, a + b, outcome) == Meaning(c, a, outcome)
    decreases c, |b|
  {
    match c
    case Leaf(id) =>
      if b == [] {
        assert a + b == a;
      } else {
        var init, last := b[..|b| - 1], b[|b| - 1];
        assert a + b == (a + init) + [last] && last in b;
        MeaningIgnores(c, a, init, outcome);
        FirstSnoc(id, a + init, last, outcome);
      }
    case Node(s, kids) =>
      forall i | 0 <= i < |kids| ensures Meaning(kids[i], a + b, outcome) == Meaning(kids[i], a, outcome) {
        assert Leaves(kids[i]) <= Leaves(c);
        MeaningIgnores(kids[i], a, b, outcome);
      }
      assert F.Meanings(kids, Events(a + b, outcome)) == F.Meanings(kids, Events(a, outcome));
  }

  lemma MeaningWithin(c: F.Conn, order: seq<nat>, outcome: Outcomes)
    requires F.Proper(c)
    ensures Meaning(c, order, outcome).Some? ==> Meaning(c, order, outcome).value.at < |order|
  {
    F.MeaningGrows(c, Events(order, outcome), F.Event(map[]));
  }

  // ---------------------------------------------------------------------------------------
  // Putting the orders of kids together
  // ---------------------------------------------------------------------------------------

  /** The kid that decides comes first, the others follow. */
  function Merged(orders: seq<seq<nat>>, k: nat): seq<nat>
    requires k < |orders|
  {
    orders[k] + Concat(orders[..k] + orders[k + 1..])
  }

  lemma InMerged(orders: seq<seq<nat>>, k: nat, id: nat)
    requires k < |orders|
    ensures id in Merged(orders, k) <==> exists i :: 0 <= i < |orders| && id in orders[i]
  {
    var others := orders[..k] + orders[k + 1..];
    InConcat(others, id);
    if i :| 0 <= i < |orders| && id in orders[i] {
      if i != k {
        assert id in others[if i < k then i else i - 1];
      }
    }
    if i :| 0 <= i < |others| && id in others[i] {
      assert id in orders[if i < k then i else i + 1];
    }
  }

  ghost predicate Local(kids: seq<F.Conn>, orders: seq<seq<nat>>) {
    |orders| == |kids| && forall i | 0 <= i < |kids| :: forall id | id in orders[i] :: id in Leaves(kids[i])
  }

  lemma MeaningInside(c: F.Conn, before: seq<nat>, own: seq<nat>, after: seq<nat>, outcome: Outcomes)
    requires F.Proper(c) && Apart(c, before) && Apart(c, after)
    ensures Meaning(c, before + own + after, outcome) == Shift(Meaning(c, own, outcome), |before|)
  {
    MeaningIgnores(c, before + own, after, outcome);
    MeaningShift(c, before, own, outcome);
  }

  predicate IsAnother(orders: seq<seq<nat>>, i: nat, order: seq<nat>) {
    exists j :: 0 <= j < |orders| && j != i && orders[j] == order
  }

  predicate InAnother(orders: seq<seq<nat>>, i: nat, id: nat) {
    exists j :: 0 <= j < |orders| && j != i && id in orders[j]
  }

  lemma ConcatOfOthers(orders: seq<seq<nat>>, i: nat, others: seq<seq<nat>>)
    requires forall m | 0 <= m < |others| :: IsAnother(orders, i, others[m])
    ensures forall id | id in Concat(others) :: InAnother(orders, i, id)
  {
    forall id | id in Concat(others) ensures InAnother(orders, i, id) {
      InConcat(others, id);
      var m :| 0 <= m < |others| && id in others[m];
      assert IsAnother(orders, i, others[m]);
    }
  }

  /** The order of kid `i` inside the merged one, and what is around it. */
  lemma PlaceInMerged(orders: seq<seq<nat>>, k: nat, i: nat) returns (before: seq<nat>, after: seq<nat>)
    requires k < |orders| && i < |orders|
    ensures Merged(orders, k) == before + orders[i] + after
    ensures if i == k then before == [] else |before| >= |orders[k]|
    ensures forall id | id in before || id in after :: InAnother(orders, i, id)
  {
    var others := orders[..k] + orders[k + 1..];
    if i == k {
      forall m | 0 <= m < |others| ensures IsAnother(orders, i, others[m]) {
        assert others[m] == orders[if m < k then m else m + 1];
      }
      ConcatOfOthers(orders, i, others);
      before, after := [], Concat(others);
      assert [] + orders[k] == orders[k];
    } else {
      before, after := PlaceAmongOthers(orders, k, i, others);
    }
  }

  lemma PlaceAmongOthers(orders: seq<seq<nat>>, k: nat, i: nat, others: seq<seq<nat>>)
    returns (before: seq<nat>, after: seq<nat>)
    requires k < |orders| && i < |orders| && i != k && others == orders[..k] + orders[k + 1..]
    ensures Merged(orders, k) == before + orders[i] + after && |before| >= |orders[k]|
    ensures forall id | id in before || id in after :: InAnother(orders, i, id)
  {
    var i' := if i < k then i else i - 1;
    var x, y := others[..i'], others[i' + 1..];
    forall m | 0 <= m < |others| && m != i' ensures IsAnother(orders, i, others[m]) {
      assert others[m] == orders[if m < k then m else m + 1];
    }
    assert forall m | 0 <= m < |x| :: x[m] == others[m];
    assert forall m | 0 <= m < |y| :: y[m] == others[i' + 1 + m];
    ConcatOfOthers(orders, i, x);
    ConcatOfOthers(orders, i, y);
    ConcatAround(others, i');
    assert others[i'] == orders[i];
    before, after := orders[k] + Concat(x), Concat(y);
    Around(orders[k], Concat(x), orders[i], Concat(y));
  }

  lemma Around(a: seq<nat>, x: seq<nat>, b: seq<nat>, y: seq<nat>)
    ensures a + (x + b + y) == (a + x) + b + y
  {
  }

  /** In the merged order a kid means what it means in its own order, the deciding one at the same time
      and any other one later. */
  lemma KidInMerged(kids: seq<F.Conn>, orders: seq<seq<nat>>, k: nat, i: nat, outcome: Outcomes) returns (n: nat)
    requires Local(kids, orders) && k < |kids| && i < |kids|
    requires F.Proper(kids[i]) && forall j | 0 <= j < |kids| && j != i :: Leaves(kids[i]) !! Leaves(kids[j])
    ensures Meaning(kids[i], Merged(orders, k), outcome) == Shift(Meaning(kids[i], orders[i], outcome), n)
    ensures if i == k then n == 0 else n >= |orders[k]|
  {
    var before, after := PlaceInMerged(orders, k, i);
    n := |before|;
    forall id | id in before || id in after ensures id !in Leaves(kids[i]) {
      assert InAnother(orders, i, id);
    }
    MeaningInside(kids[i], before, orders[i], after, outcome);
  }

  lemma {:induction false} NoRepeatConcat(kids: seq<F.Conn>, orders: seq<seq<nat>>)
    requires Local(kids, orders) && forall i | 0 <= i < |orders| :: NoRepeat(orders[i])
    requires forall i, j | 0 <= i < j < |kids| :: Leaves(kids[i]) !! Leaves(kids[j])
    ensures NoRepeat(Concat(orders))
  {
    if orders != [] {
      NoRepeatConcat(kids[1..], orders[1..]);
      forall id | id in Concat(orders[1..]) ensures id !in orders[0] {
        InConcat(orders[1..], id);
        var i :| 0 <= i < |orders[1..]| && id in orders[1..][i];
        assert id in orders[i + 1] && Leaves(kids[0]) !! Leaves(kids[i + 1]);
      }
      NoRepeatJoin(orders[0], Concat(orders[1..]));
    }
  }

  lemma NoRepeatJoin(a: seq<nat>, b: seq<nat>)
    requires NoRepeat(a) && NoRepeat(b) && forall id | id in b :: id !in a
    ensures NoRepeat(a + b)
  {
    forall i, j | 0 <= i < j < |a + b| ensures (a + b)[i] != (a + b)[j] {
      assert i >= |a| ==> (a + b)[i] == b[i - |a|];
      assert j >= |a| ==> (a + b)[j] == b[j - |a|] && b[j - |a|] in b;
    }
  }

  lemma NoRepeatMerged(kids: seq<F.Conn>, orders: seq<seq<nat>>, k: nat)
    requires Local(kids, orders) && k < |kids| && forall i | 0 <= i < |orders| :: NoRepeat(orders[i])
    requires forall i, j | 0 <= i < j < |kids| :: Leaves(kids[i]) !! Leaves(kids[j])
    ensures NoRepeat(Merged(orders, k))
  {
    var kids' := [kids[k]] + (kids[..k] + kids[k + 1..]);
    var orders' := [orders[k]] + (orders[..k] + orders[k + 1..]);
    assert orders'[1..] == orders[..k] + orders[k + 1..];
    forall i, j | 0 <= i < j < |kids'| ensures Leaves(kids'[i]) !! Leaves(kids'[j]) {
      var i', j' := Original(k, i), Original(k, j);
      assert kids'[i] == kids[i'] && kids'[j] == kids[j'] && i' != j';
    }
    forall i | 0 <= i < |kids'| ensures orders'[i] == orders[Original(k, i)] && kids'[i] == kids[Original(k, i)] {
    }
    NoRepeatConcat(kids', orders');
  }

  /** Where element `i` comes from, once element `k` was put first. */
  function Original(k: nat, i: nat): nat { if i == 0 then k else if i <= k then i - 1 else i }

  // ---------------------------------------------------------------------------------------
  // Every run is explained by an order of its leaves
  // ---------------------------------------------------------------------------------------

  /** Nothing is on its way: every call of a callback has been dealt with, and every dispatch ended. */
  ghost predicate Settled(net: Net, outcome: Outcomes) {
    match net
    case Leaf(_, _) => true
    case AllNode(kids, p) =>
      && (forall i | 0 <= i < |kids| :: Settled(kids[i], outcome))
      && p.guard.Accepted?
      && forall i | 0 <= i < |kids| && Delivered(kids[i], outcome).Some? ::
           i < |p.roles| && (p.roles[i].Completed? || p.roles[i].Failed?)
    case AnyNode(kids, arrived) =>
      && (forall i | 0 <= i < |kids| :: Settled(kids[i], outcome))
      && forall i | 0 <= i < |kids| && Delivered(kids[i], outcome).Some? :: i in arrived
  }

  /** An order of leaves that have resolved, for which the connection means what it delivered. If nothing
      is on its way it is an order of all of them, and explains also that nothing was delivered. */
  ghost predicate Explained(c: F.Conn, net: Net, order: seq<nat>, outcome: Outcomes) {
    && NoRepeat(order) && (forall id | id in order :: id in Resolved(net) && id in Leaves(c))
    && (Delivered(net, outcome).Some? ==> PayloadOf(Meaning(c, order, outcome)) == Delivered(net, outcome))
    && (Settled(net, outcome) ==>
          && PayloadOf(Meaning(c, order, outcome)) == Delivered(net, outcome)
          && forall id | id in Resolved(net) :: id in order)
  }

  ghost predicate AllExplained(conns: seq<F.Conn>, nets: seq<Net>, orders: seq<seq<nat>>, outcome: Outcomes) {
    && |conns| == |nets| == |orders|
    && forall i | 0 <= i < |conns| :: Explained(conns[i], nets[i], orders[i], outcome)
  }

  /** What the kids mean in the merged order: what they delivered, the deciding one before the others. */
  ghost predicate Decides(ds: seq<Option<F.Fired>>, k: nat) {
    && k < |ds|
    && forall i | 0 <= i < |ds| && i != k && ds[i].Some? && ds[k].Some? :: ds[k].value.at < ds[i].value.at
  }

  lemma MergedKids(c: F.Conn, nets: seq<Net>, orders: seq<seq<nat>>, k: nat, outcome: Outcomes)
    requires c.Node? && F.Proper(c) && Linear(c) && k < |c.kids| && AllExplained(c.kids, nets, orders, outcome)
    ensures var ds := F.Meanings(c.kids, Events(Merged(orders, k), outcome));
            && Decides(ds, k)
            && forall i | 0 <= i < |ds| :: PayloadOf(ds[i]) == PayloadOf(Meaning(c.kids[i], orders[i], outcome))
  {
    var ds := F.Meanings(c.kids, Events(Merged(orders, k), outcome));
    forall i | 0 <= i < |ds|
      ensures PayloadOf(ds[i]) == PayloadOf(Meaning(c.kids[i], orders[i], outcome))
      ensures i != k && ds[i].Some? ==> ds[i].value.at >= |orders[k]|
      ensures i == k && ds[i].Some? ==> ds[i].value.at < |orders[k]|
    {
      var _ := KidInMerged(c.kids, orders, k, i, outcome);
      MeaningWithin(c.kids[i], orders[i], outcome);
    }
  }

  /** The merged order is one of leaves that have resolved, of all if each kid's is. */
  lemma MergedLeaves(c: F.Conn, net: Net, orders: seq<seq<nat>>, k: nat, outcome: Outcomes)
    requires c.Node? && Linear(c) && !net.Leaf? && k < |c.kids| && AllExplained(c.kids, Kids(net), orders, outcome)
    ensures var order := Merged(orders, k);
            && NoRepeat(order) && (forall id | id in order :: id in Resolved(net) && id in Leaves(c))
            && (Settled(net, outcome) ==> forall id | id in Resolved(net) :: id in order)
  {
    var order, nets := Merged(orders, k), Kids(net);
    NoRepeatMerged(c.kids, orders, k);
    forall id | id in order ensures id in Resolved(net) && id in Leaves(c) {
      InMerged(orders, k, id);
      var i :| 0 <= i < |orders| && id in orders[i];
      assert id in Resolved(nets[i]) && id in Leaves(c.kids[i]);
    }
    if Settled(net, outcome) {
      forall id | id in Resolved(net) ensures id in order {
        var i :| 0 <= i < |nets| && id in Resolved(nets[i]);
        assert Settled(nets[i], outcome) && id in orders[i];
        InMerged(orders, k, id);
      }
    }
  }

  lemma {:induction false} EveryFirstError(ds: seq<Option<F.Fired>>, k: nat)
    requires Decides(ds, k) && F.IsError(ds[k])
    ensures F.Every(ds) == ds[k]
    decreases |ds|
  {
    var rest := ds[1..];
    if k > 0 {
      assert Decides(rest, k - 1) by {
        assert forall i | 0 <= i < |rest| :: rest[i] == ds[i + 1];
      }
      EveryFirstError(rest, k - 1);
    } else {
      ErrorsLater(rest, ds[0].value.at);
    }
  }

  lemma {:induction false} ErrorsLater(ds: seq<Option<F.Fired>>, t: nat)
    requires forall i | 0 <= i < |ds| && ds[i].Some? :: t < ds[i].value.at
    ensures F.IsError(F.Every(ds)) ==> t < F.Every(ds).value.at
  {
    if ds != [] {
      assert forall i | 0 <= i < |ds[1..]| :: ds[1..][i] == ds[i + 1];
      ErrorsLater(ds[1..], t);
    }
  }

  lemma {:induction false} EarliestDecides(ds: seq<Option<F.Fired>>, k: nat)
    requires Decides(ds, k) && ds[k].Some?
    ensures F.Earliest(ds) == ds[k]
    decreases |ds|
  {
    var rest := ds[1..];
    assert forall i | 0 <= i < |rest| :: rest[i] == ds[i + 1];
    if k > 0 {
      EarliestDecides(rest, k - 1);
    } else {
      AllLater(rest, ds[0].value.at);
    }
  }

  lemma {:induction false} AllLater(ds: seq<Option<F.Fired>>, t: nat)
    requires forall i | 0 <= i < |ds| && ds[i].Some? :: t < ds[i].value.at
    ensures F.Earliest(ds).Some? ==> t < F.Earliest(ds).value.at
  {
    if ds != [] {
      assert forall i | 0 <= i < |ds[1..]| :: ds[1..][i] == ds[i + 1];
      AllLater(ds[1..], t);
    }
  }

  /** The kid that decides what a connection delivers, if that is settled by one. */
  ghost predicate Deciding(net: Net, k: nat, outcome: Outcomes) {
    match net
    case Leaf(_, _) => false
    case AllNode(kids, p) =>
      && k < |kids|
      && (p.delivered != [] && p.delivered[0].Exception? ==>
            Delivered(kids[k], outcome) == Some(F.Error(p.delivered[0].error)))
    case AnyNode(kids, arrived) => k < |kids| && (arrived != [] ==> k == arrived[0])
  }

  lemma SomeoneDecides(c: F.Conn, net: Net, outcome: Outcomes) returns (k: nat)
    requires c.Node? && F.Proper(c) && Inv(c, net, outcome)
    ensures k < |c.kids| && Deciding(net, k, outcome)
  {
    k := 0;
    if net.AllNode? {
      if net.protocol.delivered != [] && net.protocol.delivered[0].Exception? {
        k :| 0 <= k < |net.kids| && Delivered(net.kids[k], outcome) == Some(F.Error(net.protocol.delivered[0].error));
      }
    } else if net.arrived != [] {
      k := net.arrived[0];
      assert net.arrived[0] in net.arrived;
    }
  }

  /** The kids' meanings agree with what they delivered, as far as that is known. */
  ghost predicate Known(net: Net, ds: seq<Option<F.Fired>>, outcome: Outcomes) {
    && |ds| == |Kids(net)|
    && forall i | 0 <= i < |ds| ::
         var d := Delivered(Kids(net)[i], outcome);
         (d.Some? || Settled(Kids(net)[i], outcome)) ==> PayloadOf(ds[i]) == d
  }

  lemma AllDelivery(c: F.Conn, net: Net, ds: seq<Option<F.Fired>>, k: nat, outcome: Outcomes)
    requires c.Node? && c.strategy.All? && Inv(c, net, outcome) && Known(net, ds, outcome)
    requires Decides(ds, k) && Deciding(net, k, outcome)
    requires Delivered(net, outcome).Some? || Settled(net, outcome)
    ensures PayloadOf(F.Every(ds)) == Delivered(net, outcome)
  {
    var p := net.protocol;
    if p.delivered == [] {
      NothingYet(c, net, ds, outcome);
    } else if p.delivered[0].Exception? {
      EveryFirstError(ds, k);
    } else {
      Protocol.ZeroMeansDone(p);
      forall i | 0 <= i < |ds| ensures PayloadOf(ds[i]) == Some(F.Values(p.boxes[i].value)) {
        assert KidAgrees(p, i, Delivered(net.kids[i], outcome));
      }
      ValuesOfAll(ds, p.boxes);
    }
  }

  lemma ValuesOfAll(ds: seq<Option<F.Fired>>, boxes: seq<Option<seq<Arg>>>)
    requires |ds| == |boxes|
    requires forall i | 0 <= i < |ds| :: boxes[i].Some? && PayloadOf(ds[i]) == Some(F.Values(boxes[i].value))
    ensures PayloadOf(F.Every(ds)) == Some(F.Values(Protocol.Unboxed(boxes)))
  {
    assert F.ResultsOf(ds) == boxes;
    NoneMissing(ds);
    F.EveryWithoutErrors(ds);
  }

  lemma {:induction false} NoneMissing(ds: seq<Option<F.Fired>>)
    requires forall i | 0 <= i < |ds| :: F.ResultOf(ds[i]).Some?
    ensures F.Missing(ds) == 0
  {
    if ds != [] {
      NoneMissing(ds[1..]);
    }
  }

  /** A settled all connection that delivered nothing waits for some kid, and none has failed. */
  lemma NothingYet(c: F.Conn, net: Net, ds: seq<Option<F.Fired>>, outcome: Outcomes)
    requires c.Node? && c.strategy.All? && Inv(c, net, outcome) && Known(net, ds, outcome)
    requires Settled(net, outcome) && net.protocol.delivered == []
    ensures F.Every(ds).None?
  {
    var p, kids := net.protocol, net.kids;
    forall i | 0 <= i < |ds| ensures !F.IsError(ds[i]) && (ds[i].Some? ==> p.roles[i].Completed?) {
      assert KidAgrees(p, i, Delivered(kids[i], outcome));
      assert PayloadOf(ds[i]) == Delivered(kids[i], outcome);
      assert p.roles[i] in p.roles;
    }
    if forall i | 0 <= i < |ds| :: ds[i].Some? {
      Protocol.CountZero(p.roles);
      assert false;
    } else {
      var i :| 0 <= i < |ds| && ds[i].None?;
      F.MissingUpdate(ds, i, None);
      F.EveryWithoutErrors(ds);
    }
  }

  lemma AnyDelivery(c: F.Conn, net: Net, ds: seq<Option<F.Fired>>, k: nat, outcome: Outcomes)
    requires c.Node? && c.strategy.Any? && Inv(c, net, outcome) && Known(net, ds, outcome)
    requires Decides(ds, k) && Deciding(net, k, outcome)
    requires Delivered(net, outcome).Some? || Settled(net, outcome)
    ensures PayloadOf(F.Earliest(ds)) == Delivered(net, outcome)
  {
    if net.arrived == [] {
      forall i | 0 <= i < |ds| ensures ds[i].None? {
        assert PayloadOf(ds[i]) == Delivered(net.alternatives[i], outcome);
      }
      F.NoneYet(ds);
    } else {
      assert net.arrived[0] in net.arrived;
      EarliestDecides(ds, k);
    }
  }

  lemma ExplainNode(c: F.Conn, net: Net, orders: seq<seq<nat>>, outcome: Outcomes) returns (order: seq<nat>)
    requires c.Node? && F.Proper(c) && Linear(c) && Inv(c, net, outcome)
    requires AllExplained(c.kids, Kids(net), orders, outcome)
    ensures Explained(c, net, order, outcome)
  {
    order := [];
    if Delivered(net, outcome).Some? || Settled(net, outcome) {
      var k := SomeoneDecides(c, net, outcome);
      order := Merged(orders, k);
      MergedKids(c, Kids(net), orders, k, outcome);
      MergedLeaves(c, net, orders, k, outcome);
      var ds := F.Meanings(c.kids, Events(order, outcome));
      assert Known(net, ds, outcome);
      if c.strategy.All? {
        AllDelivery(c, net, ds, k, outcome);
      } else {
        AnyDelivery(c, net, ds, k, outcome);
      }
    }
  }

  lemma {:induction false} Explain(c: F.Conn, net: Net, outcome: Outcomes) returns (order: seq<nat>)
    requires F.Proper(c) && Linear(c) && Inv(c, net, outcome)
    ensures Explained(c, net, order, outcome)
    decreases c, 0
  {
    match c
    case Leaf(id) =>
      order := if net.resolved then [id] else [];
      FirstSnoc(id, [], id, outcome);
      assert [] + [id] == [id];
    case Node(_, kids) =>
      var orders := ExplainAll(kids, Kids(net), outcome);
      order := ExplainNode(c, net, orders, outcome);
  }

  lemma {:induction false} ExplainAll(conns: seq<F.Conn>, nets: seq<Net>, outcome: Outcomes)
    returns (orders: seq<seq<nat>>)
    requires |conns| == |nets|
    requires forall i | 0 <= i < |conns| :: F.Proper(conns[i]) && Linear(conns[i]) && Inv(conns[i], nets[i], outcome)
    ensures AllExplained(conns, nets, orders, outcome)
    decreases conns, 1
  {
    orders := [];
    if conns != [] {
      var first := Explain(conns[0], nets[0], outcome);
      var rest := ExplainAll(conns[1..], nets[1..], outcome);
      orders := [first] + rest;
      assert forall i | 0 < i < |conns| :: orders[i] == rest[i - 1] && conns[i] == conns[1..][i - 1];
    }
  }

  /** Every run of a nested connection, whatever its atomic steps and however they interleave, delivers
      what the connection means for some order of the leaves that have resolved; once nothing is on its
      way, that is an order of all of them, also if nothing was delivered. */
  lemma RunIsExplained(c: F.Conn, actions: seq<Action>, outcome: Outcomes) returns (order: seq<nat>)
    requires F.Proper(c) && Linear(c) && Run(Start(c), actions, outcome).Some?
    ensures Explained(c, Run(Start(c), actions, outcome).value, order, outcome)
  {
    StartInv(c, outcome);
    RunKeepsInv(c, Start(c), actions, outcome);
    order := Explain(c, Run(Start(c), actions, outcome).value, outcome);
  }

  // ---------------------------------------------------------------------------------------
  // Nothing gets stuck
  // ---------------------------------------------------------------------------------------

  /** A step of some connection, as opposed to a leaf that resolves. */
  predicate Internal(a: Action) {
    match a case Resolve => false case Below(_, step) => Internal(step) case _ => true
  }

  lemma CanResolve(p: Protocol.State, kids: seq<Net>, i: nat, outcome: Outcomes) returns (x: Protocol.Action)
    requires Protocol.Inv(p) && i < |kids| == |p.roles| && Delivered(kids[i], outcome).Some?
    requires !p.roles[i].Unregistered? && !p.roles[i].Completed? && !p.roles[i].Failed?
    ensures Enabled(AllNode(kids, p), Act(x), outcome)
  {
    match p.roles[i]
    case Registered =>
      x := match Delivered(kids[i], outcome).value
           case Values(args) => Protocol.Assign(i, args)
           case Error(e) => Protocol.Fail(i, e);
    case Assigned => x := Protocol.Decrement(i);
    case Invoking => x := Protocol.Invoke(i);
    case _ =>
  }

  lemma CanDispatch(p: Protocol.State) returns (x: Protocol.Action)
    requires Protocol.Inv(p) && !p.guard.Accepted?
    ensures Protocol.Enabled(p, x) && !x.Assign? && !x.Fail?
  {
    if p.guard.GuardInvoking? {
      x := Protocol.AcceptInvoke;
    } else if Protocol.Unregistered !in p.roles {
      x := Protocol.AcceptDecrement;
    } else {
      var i := FirstUnregistered(p.roles);
      x := Protocol.Create(i);
    }
  }

  lemma {:induction false} FirstUnregistered(roles: seq<Protocol.Role>) returns (i: nat)
    requires Protocol.Unregistered in roles
    ensures i < |roles| && roles[i].Unregistered? && forall j | 0 <= j < i :: !roles[j].Unregistered?
  {
    if roles[0].Unregistered? {
      i := 0;
    } else {
      i := FirstUnregistered(roles[1..]);
      assert forall j | 0 < j < i + 1 :: roles[j] == roles[1..][j - 1];
      i := i + 1;
    }
  }

  /** As long as something is on its way, some connection can make a step. */
  lemma {:induction false} SomeStepUntilSettled(c: F.Conn, net: Net, outcome: Outcomes) returns (a: Action)
    requires Inv(c, net, outcome) && !Settled(net, outcome)
    ensures Enabled(net, a, outcome) && Internal(a)
    decreases c
  {
    var kids := Kids(net);
    if i :| 0 <= i < |kids| && !Settled(kids[i], outcome) {
      var step := SomeStepUntilSettled(c.kids[i], kids[i], outcome);
      a := Below(i, step);
    } else if net.AllNode? {
      if !net.protocol.guard.Accepted? {
        var x := CanDispatch(net.protocol);
        a := Act(x);
      } else {
        var p := net.protocol;
        var i :| 0 <= i < |kids| && Delivered(kids[i], outcome).Some? && !p.roles[i].Completed? && !p.roles[i].Failed?;
        assert p.roles[i] in p.roles;
        var x := CanResolve(p, kids, i, outcome);
        a := Act(x);
      }
    } else {
      var i :| 0 <= i < |kids| && Delivered(kids[i], outcome).Some? && i !in net.arrived;
      a := Arrive(i);
    }
  }

  /** At first no leaf has resolved and nothing is delivered. */
  lemma {:induction false} NothingAtFirst(c: F.Conn, outcome: Outcomes)
    ensures Resolved(Start(c)) == {} && Delivered(Start(c), outcome).None?
    decreases c
  {
    if c.Node? {
      forall i | 0 <= i < |c.kids| ensures Resolved(Start(c.kids[i])) == {} {
        NothingAtFirst(c.kids[i], outcome);
      }
    }
  }

  lemma ResolvedOfKids(net: Net)
    requires !net.Leaf?
    ensures forall id :: id in Resolved(net) <==> exists i :: 0 <= i < |Kids(net)| && id in Resolved(Kids(net)[i])
  {
  }

  /** Any leaf may resolve at any moment, and then exactly that one has resolved in addition. */
  lemma {:induction false} LeafMayResolve(c: F.Conn, net: Net, id: nat, outcome: Outcomes) returns (a: Action)
    requires Inv(c, net, outcome) && id in Leaves(c) && id !in Resolved(net)
    ensures Enabled(net, a, outcome) && !Internal(a)
    ensures Resolved(Step(net, a, outcome)) == Resolved(net) + {id}
    decreases c
  {
    if c.Leaf? {
      a := Resolve;
    } else {
      var kids := Kids(net);
      var i :| 0 <= i < |kids| && id in Leaves(c.kids[i]);
      var step := LeafMayResolve(c.kids[i], kids[i], id, outcome);
      a := Below(i, step);
      KidResolved(net, i, step, outcome);
    }
  }

  lemma KidResolved(net: Net, i: nat, step: Action, outcome: Outcomes)
    requires !net.Leaf? && i < |Kids(net)| && Enabled(Kids(net)[i], step, outcome)
    requires Resolved(Kids(net)[i]) <= Resolved(Step(Kids(net)[i], step, outcome))
    ensures Resolved(Step(net, Below(i, step), outcome))
         == Resolved(net) + Resolved(Step(Kids(net)[i], step, outcome))
  {
    var after := Step(net, Below(i, step), outcome);
    ResolvedOfKids(net);
    ResolvedOfKids(after);
    assert Kids(after) == Kids(net)[i := Step(Kids(net)[i], step, outcome)];
    forall id ensures id in Resolved(after) <==> id in Resolved(net) || id in Resolved(Kids(after)[i]) {
      if k :| 0 <= k < |Kids(net)| && id in Resolved(Kids(net)[k]) {
        assert id in Resolved(Kids(after)[k]);
      }
      if k :| 0 <= k < |Kids(after)| && id in Resolved(Kids(after)[k]) {
        assert k != i ==> id in Resolved(Kids(net)[k]);
      }
    }
  }

  /** The steps of connections resolve no leaf. */
  lemma {:induction false} InternalResolvesNothing(net: Net, a: Action, outcome: Outcomes)
    requires Enabled(net, a, outcome) && Internal(a)
    ensures Resolved(Step(net, a, outcome)) == Resolved(net)
    decreases net
  {
    if a.Below? {
      InternalResolvesNothing(Kids(net)[a.kid], a.step, outcome);
      KidResolved(net, a.kid, a.step, outcome);
      ResolvedOfKids(net);
      assert forall id | id in Resolved(Kids(net)[a.kid]) :: id in Resolved(net);
    } else {
      assert Kids(Step(net, a, outcome)) == Kids(net);
    }
  }

  // ---------------------------------------------------------------------------------------
  // Every run comes to an end
  // ---------------------------------------------------------------------------------------

  function RolesAhead(roles: seq<Protocol.Role>): nat {
    if roles == [] then 0
    else
      (match roles[0] case Unregistered => 4 case Registered => 3 case Assigned => 2 case Invoking => 1 case _ => 0)
      + RolesAhead(roles[1..])
  }

  lemma {:induction false} RoleMovesOn(roles: seq<Protocol.Role>, i: nat, r: Protocol.Role)
    requires i < |roles| && RolesAhead([r]) < RolesAhead([roles[i]])
    ensures RolesAhead(roles[i := r]) < RolesAhead(roles)
  {
    if i == 0 {
      assert roles[i := r][1..] == roles[1..];
    } else {
      assert roles[i := r][1..] == roles[1..][i - 1 := r];
      RoleMovesOn(roles[1..], i - 1, r);
    }
  }

  function ProtocolAhead(p: Protocol.State): nat {
    RolesAhead(p.roles) + match p.guard case Held => 2 case GuardInvoking => 1 case Accepted => 0
  }

  /** How many of the first `n` have not arrived. */
  function Missing(n: nat, arrived: seq<nat>): nat {
    if n == 0 then 0 else Missing(n - 1, arrived) + if n - 1 in arrived then 0 else 1
  }

  lemma {:induction false} ArrivalIsNotMissing(n: nat, arrived: seq<nat>, i: nat)
    requires i !in arrived
    ensures Missing(n, arrived + [i]) == Missing(n, arrived) - if i < n then 1 else 0
  {
    if n > 0 {
      ArrivalIsNotMissing(n - 1, arrived, i);
    }
  }

  /** A bound for the number of steps that are possible. */
  function StepsAhead(net: Net): nat {
    match net
    case Leaf(_, resolved) => if resolved then 0 else 1
    case AllNode(kids, p) => AllStepsAhead(kids) + ProtocolAhead(p)
    case AnyNode(kids, arrived) => AllStepsAhead(kids) + Missing(|kids|, arrived)
  }

  function AllStepsAhead(nets: seq<Net>): nat {
    if nets == [] then 0 else StepsAhead(nets[0]) + AllStepsAhead(nets[1..])
  }

  lemma {:induction false} OneStepsAhead(nets: seq<Net>, i: nat, net: Net)
    requires i < |nets| && StepsAhead(net) < StepsAhead(nets[i])
    ensures AllStepsAhead(nets[i := net]) < AllStepsAhead(nets)
  {
    if i == 0 {
      assert nets[i := net][1..] == nets[1..];
    } else {
      assert nets[i := net][1..] == nets[1..][i - 1 := net];
      OneStepsAhead(nets[1..], i - 1, net);
    }
  }

  lemma {:induction false} ProtocolMovesOn(p: Protocol.State, x: Protocol.Action)
    requires Protocol.Enabled(p, x)
    ensures ProtocolAhead(Protocol.Step(p, x)) < ProtocolAhead(p)
  {
    if !x.AcceptDecrement? && !x.AcceptInvoke? {
      RoleMovesOn(p.roles, x.i, Protocol.Step(p, x).roles[x.i]);
    }
  }

  lemma {:induction false} StepLowersAhead(net: Net, a: Action, outcome: Outcomes)
    requires Enabled(net, a, outcome)
    ensures StepsAhead(Step(net, a, outcome)) < StepsAhead(net)
    decreases net
  {
    match a
    case Act(x) => ProtocolMovesOn(net.protocol, x);
    case Arrive(i) => ArrivalIsNotMissing(|net.alternatives|, net.arrived, i);
    case Below(i, step) =>
      StepLowersAhead(Kids(net)[i], step, outcome);
      OneStepsAhead(Kids(net), i, Step(Kids(net)[i], step, outcome));
    case Resolve =>
  }

  /** No run, however it is interleaved, has more steps than the connection has ahead of it. */
  lemma {:induction false} RunsAreBounded(net: Net, actions: seq<Action>, outcome: Outcomes)
    requires Run(net, actions, outcome).Some?
    ensures |actions| + StepsAhead(Run(net, actions, outcome).value) <= StepsAhead(net)
    decreases |actions|
  {
    if actions != [] {
      StepLowersAhead(net, actions[0], outcome);
      RunsAreBounded(Step(net, actions[0], outcome), actions[1..], outcome);
    }
  }

  /** From wherever a connection is, its own steps, in any order, lead to where nothing is on its way, without
      any other leaf resolving. */
  lemma {:induction false} Settles(c: F.Conn, net: Net, outcome: Outcomes) returns (more: seq<Action>)
    requires Inv(c, net, outcome)
    ensures Run(net, more, outcome).Some? && forall a | a in more :: Internal(a)
    ensures var end := Run(net, more, outcome).value;
            Inv(c, end, outcome) && Settled(end, outcome) && Resolved(end) == Resolved(net)
    decreases StepsAhead(net)
  {
    if Settled(net, outcome) {
      more := [];
    } else {
      var a := SomeStepUntilSettled(c, net, outcome);
      StepKeepsInv(c, net, a, outcome);
      StepLowersAhead(net, a, outcome);
      InternalResolvesNothing(net, a, outcome);
      var rest := Settles(c, Step(net, a, outcome), outcome);
      more := [a] + rest;
      assert more[1..] == rest;
    }
  }

  lemma {:induction false} TheseResolve(c: F.Conn, net: Net, order: seq<nat>, outcome: Outcomes)
    returns (actions: seq<Action>)
    requires Inv(c, net, outcome) && NoRepeat(order)
    requires forall id | id in order :: id in Leaves(c) && id !in Resolved(net)
    ensures Run(net, actions, outcome).Some?
    ensures var end := Run(net, actions, outcome).value;
            && Inv(c, end, outcome) && Settled(end, outcome)
            && forall id :: id in Resolved(end) <==> id in Resolved(net) || id in order
    decreases |order|
  {
    if order == [] {
      actions := Settles(c, net, outcome);
    } else {
      var id := order[0];
      var a := LeafMayResolve(c, net, id, outcome);
      StepKeepsInv(c, net, a, outcome);
      assert forall j | 0 < j < |order| :: order[1..][j - 1] == order[j] && order[j] != id;
      var rest := TheseResolve(c, Step(net, a, outcome), order[1..], outcome);
      actions := [a] + rest;
      assert actions[1..] == rest;
      assert forall x :: x in order <==> x == id || x in order[1..];
    }
  }

  /** For any leaves of a connection there is a run in which just these resolve and all calls are dealt with;
      what it delivers is what the connection means for some order of just these. */
  lemma AnyLeavesMayResolve(c: F.Conn, order: seq<nat>, outcome: Outcomes)
    returns (actions: seq<Action>, explanation: seq<nat>)
    requires F.Proper(c) && Linear(c) && NoRepeat(order) && forall id | id in order :: id in Leaves(c)
    ensures Run(Start(c), actions, outcome).Some?
    ensures var net := Run(Start(c), actions, outcome).value;
            && Settled(net, outcome) && (forall id :: id in Resolved(net) <==> id in order)
            && (forall id :: id in explanation <==> id in order) && NoRepeat(explanation)
            && PayloadOf(Meaning(c, explanation, outcome)) == Delivered(net, outcome)
  {
    StartInv(c, outcome);
    NothingAtFirst(c, outcome);
    actions := TheseResolve(c, Start(c), order, outcome);
    explanation := RunIsExplained(c, actions, outcome);
  }

  // ---------------------------------------------------------------------------------------
  // Flat and nested connections
  // ---------------------------------------------------------------------------------------

  function Atoms(e: F.Expr): set<nat> {
    match e
    case Atom(id) => {id}
    case And(l, r) => Atoms(l) + Atoms(r)
    case Or(l, r) => Atoms(l) + Atoms(r)
    case Finish(f) => Atoms(f)
  }

  /** Each continuable is used once. */
  predicate UsedOnce(e: F.Expr) {
    match e
    case Atom(_) => true
    case And(l, r) => UsedOnce(l) && UsedOnce(r) && Atoms(l) !! Atoms(r)
    case Or(l, r) => UsedOnce(l) && UsedOnce(r) && Atoms(l) !! Atoms(r)
    case Finish(f) => UsedOnce(f)
  }

  /** The kids of a node, before there is one. */
  ghost predicate LinearKids(kids: seq<F.Conn>, atoms: set<nat>) {
    forall s: F.Strategy :: Linear(F.Node(s, kids)) && Leaves(F.Node(s, kids)) == atoms
  }

  lemma KidsJoin(xs: seq<F.Conn>, a: set<nat>, ys: seq<F.Conn>, b: set<nat>)
    requires LinearKids(xs, a) && LinearKids(ys, b) && a !! b
    ensures LinearKids(xs + ys, a + b)
  {
    forall s: F.Strategy ensures Linear(F.Node(s, xs + ys)) && Leaves(F.Node(s, xs + ys)) == a + b {
      assert Linear(F.Node(s, xs)) && Linear(F.Node(s, ys));
      assert Leaves(F.Node(s, xs)) == a && Leaves(F.Node(s, ys)) == b;
      var zs := xs + ys;
      forall i | 0 <= i < |zs|
        ensures Linear(zs[i]) && if i < |xs| then Leaves(zs[i]) <= a else Leaves(zs[i]) <= b
      {
        assert i >= |xs| ==> zs[i] == ys[i - |xs|];
      }
      forall i, j | 0 <= i < j < |zs| ensures Leaves(zs[i]) !! Leaves(zs[j]) {
        if i >= |xs| {
          assert Leaves(ys[i - |xs|]) !! Leaves(ys[j - |xs|]);
        }
      }
      forall id | id in a + b ensures id in Leaves(F.Node(s, zs)) {
        if id in a {
          var i :| 0 <= i < |xs| && id in Leaves(xs[i]);
          assert id in Leaves(zs[i]);
        } else {
          var i :| 0 <= i < |ys| && id in Leaves(ys[i]);
          assert id in Leaves(zs[|xs| + i]);
        }
      }
    }
  }

  lemma OneKid(c: F.Conn, atoms: set<nat>)
    requires Linear(c) && Leaves(c) == atoms
    ensures LinearKids([c], atoms)
  {
    forall s: F.Strategy ensures Linear(F.Node(s, [c])) && Leaves(F.Node(s, [c])) == atoms {
      assert [c][0] == c;
    }
  }

  ghost predicate LinearForm(a: F.Annotated, atoms: set<nat>) {
    && Linear(F.Materialize(a)) && Leaves(F.Materialize(a)) == atoms
    && (a.Pending? ==> LinearKids(a.data, atoms))
  }

  lemma OperatorIsLinear(s: F.Strategy, x: F.Annotated, a: set<nat>, y: F.Annotated, b: set<nat>)
    requires LinearForm(x, a) && LinearForm(y, b) && a !! b
    ensures LinearForm(F.Connect(s, x, y), a + b)
  {
    OneKid(F.Materialize(x), a);
    OneKid(F.Materialize(y), b);
    KidsJoin(F.Normalize(s, x), a, F.Normalize(s, y), b);
  }

  lemma {:induction false} CompiledIsLinear(e: F.Expr)
    requires UsedOnce(e)
    ensures LinearForm(F.Compile(e), Atoms(e))
  {
    match e
    case Atom(_) =>
    case And(l, r) =>
      CompiledIsLinear(l);
      CompiledIsLinear(r);
      OperatorIsLinear(F.All, F.Compile(l), Atoms(l), F.Compile(r), Atoms(r));
    case Or(l, r) =>
      CompiledIsLinear(l);
      CompiledIsLinear(r);
      OperatorIsLinear(F.Any, F.Compile(l), Atoms(l), F.Compile(r), Atoms(r));
    case Finish(f) => CompiledIsLinear(f);
  }

  /** For every expression, every run of the flat connection, atomic step by atomic step, delivers what
      the expression as it is written means for some order of the leaves that have resolved. */
  lemma FlatRunIsExplainedAsWritten(e: F.Expr, actions: seq<Action>, outcome: Outcomes) returns (order: seq<nat>)
    requires UsedOnce(e) && Run(Start(F.Materialize(F.Compile(e))), actions, outcome).Some?
    ensures var net := Run(Start(F.Materialize(F.Compile(e))), actions, outcome).value;
            && NoRepeat(order) && (forall id | id in order :: id in Resolved(net))
            && (Delivered(net, outcome).Some? ==>
                  PayloadOf(Meaning(F.Nested(e), order, outcome)) == Delivered(net, outcome))
            && (Settled(net, outcome) ==>
                  && PayloadOf(Meaning(F.Nested(e), order, outcome)) == Delivered(net, outcome)
                  && forall id | id in Resolved(net) :: id in order)
  {
    CompiledIsLinear(e);
    F.BuiltIsProper(e);
    order := RunIsExplained(F.Materialize(F.Compile(e)), actions, outcome);
    F.CompilePreservesMeaning(e, Events(order, outcome));
  }
}
