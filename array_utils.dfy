/** `org.umtools.util.ArrayUtils`: exchanging two elements of an array in
    place. The `int[]` and `double[]` overloads only move values, so one
    generic method models both. */
module ArrayUtils {
  import opened JavaLang

  /** The sequence `s` with the elements at `i` and `j` exchanged. */
  function Swapped<T>(s: seq<T>, i: nat, j: nat): (r: seq<T>)
    requires i < |s| && j < |s|
    ensures |r| == |s|
    ensures r[i] == s[j] && r[j] == s[i]
    ensures forall k :: 0 <= k < |s| && k != i && k != j ==> r[k] == s[k]
  {
    s[i := s[j]][j := s[i]]
  }

  /** Exchanging an element with itself changes nothing. */
  lemma SwappedSelf<T>(s: seq<T>, i: nat)
    requires i < |s|
    ensures Swapped(s, i, i) == s
  {
  }

  /** Exchanging the same pair twice restores the original sequence. */
  lemma SwappedTwice<T>(s: seq<T>, i: nat, j: nat)
    requires i < |s| && j < |s|
    ensures Swapped(Swapped(s, i, j), i, j) == s
  {
  }

  /** An exchange is a permutation: the multiset of elements is kept. */
  lemma SwappedPermutes<T>(s: seq<T>, i: nat, j: nat)
    requires i < |s| && j < |s|
    ensures multiset(Swapped(s, i, j)) == multiset(s)
  {
  }

  /** `swap(array, i, j)`. The element at `i` is read first and the one at
      `j` is read before anything is written, so an index out of range makes
      the call fail (reporting `i` if both are bad) with the array untouched. */
  method Swap<T>(a: array<T>, i: int, j: int) returns (r: Outcome)
    modifies a
    ensures 0 <= i < a.Length && 0 <= j < a.Length ==>
              r == Done && a[..] == Swapped(old(a[..]), i, j)
    ensures !(0 <= i < a.Length) ==> r == Failed(IndexOutOfBounds(i, a.Length)) && a[..] == old(a[..])
    ensures 0 <= i < a.Length && !(0 <= j < a.Length) ==>
              r == Failed(IndexOutOfBounds(j, a.Length)) && a[..] == old(a[..])
    ensures multiset(a[..]) == multiset(old(a[..]))
  {
    if !(0 <= i < a.Length) {
      return Failed(IndexOutOfBounds(i, a.Length));
    }
    var temp := a[i];
    if !(0 <= j < a.Length) {
      return Failed(IndexOutOfBounds(j, a.Length));
    }
    SwappedPermutes(a[..], i, j);
    a[i] := a[j];
    a[j] := temp;
    r := Done;
  }
}
