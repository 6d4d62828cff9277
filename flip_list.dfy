// Model of code/flip_list-v1.py: reversing a list, either as a new list
// (the slice `a[::-1]`) or by overwriting the caller's list in place.

module FlipList {

  /** The slice `a[::-1]`: a new sequence holding the elements of `a` in reverse order. */
  function Flipped<T>(a: seq<T>): (r: seq<T>)
    ensures |r| == |a|
    ensures forall i :: 0 <= i < |a| ==> r[i] == a[|a| - 1 - i]
  {
    if a == [] then [] else Flipped(a[1..]) + [a[0]]
  }

  /** Reversing twice gives back the original sequence. */
  lemma {:induction false} FlippedTwice<T>(a: seq<T>)
    ensures Flipped(Flipped(a)) == a
  {
    var r := Flipped(a);
    var rr := Flipped(r);
    forall i | 0 <= i < |a|
      ensures rr[i] == a[i]
    {
      assert rr[i] == r[|a| - 1 - i];
    }
  }

  /**
   * `flip_list(a, inplace)`. With `inplace` the caller's list is overwritten
   * with its reversal and None (here `null`) is returned; otherwise a new
   * list holding the reversal is returned and `a` is left as it was. As in
   * the source, copy mode is the default.
   */
  method FlipList<T>(a: array<T>, inplace: bool := false) returns (flipped: array?<T>)
    modifies a
    ensures inplace ==> flipped == null && a[..] == Flipped(old(a[..]))
    ensures !inplace ==> a[..] == old(a[..])
    ensures !inplace ==> flipped != null && fresh(flipped) && flipped[..] == Flipped(a[..])
  {
    var r := Flipped(a[..]);
    if inplace {
      // overwrite every element of the caller's list with its reversal
      forall i | 0 <= i < a.Length {
        a[i] := r[i];
      }
      flipped := null;
    } else {
      // hand back a new list; the caller's list is not touched
      flipped := new T[|r|](i requires 0 <= i < |r| => r[i]);
    }
  }
}
