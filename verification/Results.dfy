/** The three-case result that every asynchronous operation ends in, and the optional value
    used wherever the library keeps a slot that may not be filled yet. */
module Results {

  /** Asynchronous arguments and exceptions are opaque to the library. */
  type Arg = int
  type Error = int

  /** The default constructed exception, which stands for a cancellation. */
  const CANCELLATION: Error := 0

  datatype Option<+T> = None | Some(value: T)

  /** A `result<Args...>`: values, an exception, or nothing at all. `Empty` as the outcome of a
      continuation means that its callback is never invoked. */
  datatype Outcome = Value(args: seq<Arg>) | Exception(error: Error) | Empty

  /** All values of a list of argument packs, in order. */
  function Concat<T>(packs: seq<seq<T>>): seq<T> {
    if packs == [] then [] else packs[0] + Concat(packs[1..])
  }

  lemma {:induction false} ConcatSplits<T>(xs: seq<seq<T>>, ys: seq<seq<T>>)
    ensures Concat(xs + ys) == Concat(xs) + Concat(ys)
  {
    if xs == [] {
      assert xs + ys == ys;
    } else {
      assert (xs + ys)[1..] == xs[1..] + ys;
      ConcatSplits(xs[1..], ys);
    }
  }

  /** Where a pack ends up: in its place between those before and those after it. */
  lemma ConcatAround<T>(packs: seq<seq<T>>, i: nat)
    requires i < |packs|
    ensures Concat(packs) == Concat(packs[..i]) + packs[i] + Concat(packs[i + 1..])
  {
    var before, after := packs[..i], packs[i..];
    assert packs == before + after && after[1..] == packs[i + 1..];
    ConcatSplits(before, after);
    Joins(Concat(before), packs[i], Concat(packs[i + 1..]));
  }

  lemma Joins<T>(a: seq<T>, b: seq<T>, c: seq<T>)
    ensures a + (b + c) == a + b + c
  {
  }

  lemma {:induction false} InConcat<T>(packs: seq<seq<T>>, x: T)
    ensures x in Concat(packs) <==> exists i :: 0 <= i < |packs| && x in packs[i]
  {
    if packs != [] {
      InConcat(packs[1..], x);
      if i :| 0 <= i < |packs| && x in packs[i] {
        assert i > 0 ==> x in packs[1..][i - 1];
      }
      if i :| 0 <= i < |packs[1..]| && x in packs[1..][i] {
        assert x in packs[i + 1];
      }
    }
  }
}
