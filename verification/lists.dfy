/** Sequence operations shared by the participant editors. */
module Lists {

  /** `xs.filter((_, k) => k !== i)`: drop the entry at index `i`, keeping
      the others in order; an index outside the list drops nothing. */
  function RemoveAt<T>(xs: seq<T>, i: int): (r: seq<T>)
    ensures 0 <= i < |xs| ==> |r| == |xs| - 1
    ensures 0 <= i < |xs| ==> forall k :: 0 <= k < i ==> r[k] == xs[k]
    ensures 0 <= i < |xs| ==> forall k :: i <= k < |r| ==> r[k] == xs[k + 1]
    ensures !(0 <= i < |xs|) ==> r == xs
  {
    if xs == [] then []
    else
      var rest := RemoveAt(xs[1..], i - 1);
      if i == 0 then rest
      else
        assert !(0 <= i < |xs|) ==> rest == xs[1..];
        [xs[0]] + rest
  }

  /** Removing the entry that was just appended gives the list back. */
  lemma RemoveAppended<T>(xs: seq<T>, x: T)
    ensures RemoveAt(xs + [x], |xs|) == xs
  {
  }

  /** Removing is taking the slices around the index. */
  lemma RemoveAtIsSlices<T>(xs: seq<T>, i: int)
    requires 0 <= i < |xs|
    ensures RemoveAt(xs, i) == xs[..i] + xs[i + 1..]
  {
  }
}
