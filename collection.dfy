/**
 * The two updates `User` makes to its `customers` collection (a Doctrine
 * `ArrayCollection`), as functions from the old contents to the new ones.
 * Elements are compared by identity, as `contains` and `removeElement` do
 * with strict comparison.
 */
module Collection {
  import opened Sequences

  /** The guarded add of `addCustomer`: append `x` unless it is already present. */
  function Added<T(==)>(s: seq<T>, x: T): (r: seq<T>)
    ensures x in r
    ensures s <= r
    ensures |r| == if x in s then |s| else |s| + 1
  {
    if x in s then s else s + [x]
  }

  /** The smallest position holding `x` (what `array_search` finds). */
  function FirstIndex<T(==)>(s: seq<T>, x: T): (i: nat)
    requires x in s
    ensures i < |s| && s[i] == x && x !in s[..i]
  {
    if s[0] == x then 0
    else
      var i := FirstIndex(s[1..], x);
      assert s[..i + 1] == [s[0]] + s[1..][..i];
      i + 1
  }

  /** `removeElement`: drop the first occurrence of `x`, if any; everything else keeps its order. */
  function Removed<T(==)>(s: seq<T>, x: T): seq<T>
  {
    if x in s then
      var i := FirstIndex(s, x);
      s[..i] + s[i + 1..]
    else s
  }

  /**
   * Removing leaves every element before the first occurrence of `x` as it
   * was, and every element after it in the same order, one position lower.
   */
  lemma RemovedKeepsOrder<T>(s: seq<T>, x: T)
    requires x in s
    ensures var i := FirstIndex(s, x);
      Removed(s, x)[..i] == s[..i] && Removed(s, x)[i..] == s[i + 1..]
  {
    var i := FirstIndex(s, x);
    assert Removed(s, x) == s[..i] + s[i + 1..];
  }

  /** Removing takes away one copy of `x` when there is one, and nothing else. */
  lemma RemovedMultiset<T>(s: seq<T>, x: T)
    ensures multiset(Removed(s, x)) == multiset(s) - multiset{x}
  {
    if x in s {
      var i := FirstIndex(s, x);
      assert s == s[..i] + [x] + s[i + 1..];
      calc {
        multiset(s);
        multiset(s[..i]) + multiset{x} + multiset(s[i + 1..]);
        multiset(Removed(s, x)) + multiset{x};
      }
    } else {
      assert multiset(s)[x] == 0;
    }
  }

  /**
   * On a duplicate-free collection, removing `x` leaves `x` absent and every
   * other element present exactly when it was before.
   */
  lemma RemovedMembers<T>(s: seq<T>, x: T)
    requires NoDup(s)
    ensures x !in Removed(s, x)
    ensures forall y :: y != x ==> (y in Removed(s, x) <==> y in s)
  {
  }

  /** Taking an element out of a duplicate-free sequence keeps it duplicate-free. */
  lemma RemovedKeepsNoDup<T>(s: seq<T>, x: T)
    requires NoDup(s)
    ensures NoDup(Removed(s, x))
  {
  }

  /** Adding keeps a duplicate-free collection duplicate-free. */
  lemma AddedKeepsNoDup<T>(s: seq<T>, x: T)
    requires NoDup(s)
    ensures NoDup(Added(s, x))
  {
  }

  /** Adding a new element and removing it again gives back the original collection. */
  lemma RemoveUndoesAdd<T>(s: seq<T>, x: T)
    requires x !in s
    ensures Removed(Added(s, x), x) == s
  {
  }

  /** Removing twice is removing once, on a duplicate-free collection. */
  lemma RemovedIdempotent<T>(s: seq<T>, x: T)
    requires NoDup(s)
    ensures Removed(Removed(s, x), x) == Removed(s, x)
  {
  }
}
