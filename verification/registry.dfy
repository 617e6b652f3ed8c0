/**
 * The live-session lists both brokers keep (a `std::vector` of shared
 * pointers): entries are appended on registration, and the first entry equal
 * to a closing session is erased; nothing happens when it is absent.
 */
module Registry {

  ghost predicate Distinct<T>(xs: seq<T>) {
    forall i, j :: 0 <= i < j < |xs| ==> xs[i] != xs[j]
  }

  /** Position of the first element equal to `x` (std::find). */
  function IndexOf<T(==)>(xs: seq<T>, x: T): (k: nat)
    requires x in xs
    ensures k < |xs| && xs[k] == x
    ensures forall i :: 0 <= i < k ==> xs[i] != x
  {
    if xs[0] == x then 0 else IndexOf(xs[1..], x) + 1
  }

  /** Erase the first element equal to `x` (find + erase), or nothing when none is. */
  function RemoveFirst<T(==)>(xs: seq<T>, x: T): (r: seq<T>)
    ensures x !in xs ==> r == xs
    ensures x in xs ==> |r| == |xs| - 1
  {
    if xs == [] then []
    else if xs[0] == x then xs[1..]
    else [xs[0]] + RemoveFirst(xs[1..], x)
  }

  /** Erasing keeps the order of what is left: it cuts exactly the first occurrence out. */
  lemma {:induction false} RemoveFirstCutsFirstOccurrence<T>(xs: seq<T>, x: T)
    requires x in xs
    ensures RemoveFirst(xs, x) == xs[..IndexOf(xs, x)] + xs[IndexOf(xs, x) + 1..]
  {
    if xs[0] != x {
      RemoveFirstCutsFirstOccurrence(xs[1..], x);
      var k := IndexOf(xs[1..], x);
      assert xs[..k + 1] == [xs[0]] + xs[1..][..k];
      assert xs[k + 2..] == xs[1..][k + 1..];
    }
  }

  /** In a list without repetitions, erasing `x` removes exactly `x` and keeps the list distinct. */
  lemma RemoveFirstFromDistinct<T>(xs: seq<T>, x: T)
    requires Distinct(xs)
    ensures Distinct(RemoveFirst(xs, x))
    ensures forall y :: y in RemoveFirst(xs, x) <==> y in xs && y != x
  {
    if x in xs {
      RemoveFirstCutsFirstOccurrence(xs, x);
      var k := IndexOf(xs, x);
      var r := RemoveFirst(xs, x);
      assert forall i :: 0 <= i < |r| ==> r[i] == xs[if i < k then i else i + 1];
      forall y ensures y in r <==> y in xs && y != x {
        if y in xs && y != x {
          var i :| 0 <= i < |xs| && xs[i] == y;
          assert y == r[if i < k then i else i - 1];
        }
      }
    }
  }
}
