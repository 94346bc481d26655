/** `String.prototype.includes` over UTF-16 code units. */
module TextSearch {
  import opened Types

  /** `pat` occurs in `text` starting at index `i`. */
  predicate OccursAt(text: Text, pat: Text, i: int) {
    0 <= i && i + |pat| <= |text| && text[i..i + |pat|] == pat
  }

  ghost predicate Contains(text: Text, pat: Text) {
    exists i :: OccursAt(text, pat, i)
  }

  /** Scans the start positions from left to right. */
  function Includes(text: Text, pat: Text): (b: bool)
    ensures b ==> |pat| <= |text|
    ensures |pat| == 0 ==> b
    decreases |text|
  {
    if |text| < |pat| then false
    else text[..|pat|] == pat || (|text| > 0 && Includes(text[1..], pat))
  }

  /** Slicing after dropping the first unit is slicing one further along. */
  lemma ShiftSlice(text: Text, i: int, n: int)
    requires 0 <= i && 0 <= n && i + n < |text|
    ensures text[1..][i..i + n] == text[i + 1..i + 1 + n]
  {
    var a, b := text[1..][i..i + n], text[i + 1..i + 1 + n];
    assert forall k :: 0 <= k < n ==> a[k] == b[k];
  }

  /** The scan finds `pat` exactly when it occurs somewhere in `text`. */
  lemma {:induction false} IncludesSpec(text: Text, pat: Text)
    ensures Includes(text, pat) <==> Contains(text, pat)
    decreases |text|
  {
    if |text| < |pat| {
      assert forall i :: !OccursAt(text, pat, i);
    } else if text[..|pat|] == pat {
      assert OccursAt(text, pat, 0);
    } else {
      IncludesSpec(text[1..], pat);
      if Includes(text[1..], pat) {
        var i :| OccursAt(text[1..], pat, i);
        ShiftSlice(text, i, |pat|);
        assert OccursAt(text, pat, i + 1);
      }
      if Contains(text, pat) {
        var i :| OccursAt(text, pat, i);
        assert i != 0;
        ShiftSlice(text, i - 1, |pat|);
        assert OccursAt(text[1..], pat, i - 1);
      }
    }
  }
}
