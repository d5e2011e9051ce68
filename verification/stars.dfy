/** A row of star icons, some filled: the admin feedback list and the
    feedback form both draw one. */
module Stars {

  /** `n` stars of which exactly those at index `i < filled` are filled. */
  function StarRow(n: nat, filled: int): (r: seq<bool>)
    ensures |r| == n
    ensures forall i :: 0 <= i < n ==> (r[i] <==> i < filled)
  {
    seq(n, i requires 0 <= i < n => i < filled)
  }

  /** How many stars of a row are filled. */
  function FilledCount(s: seq<bool>): nat {
    if |s| == 0 then 0 else FilledCount(s[..|s| - 1]) + (if s[|s| - 1] then 1 else 0)
  }

  /** `x` limited to the range `lo..hi`. */
  function Clamp(x: int, lo: int, hi: int): int
    requires lo <= hi
  {
    if x < lo then lo else if x > hi then hi else x
  }

  /** A row of `n` stars filled below `filled` shows `filled` filled stars,
      limited to `0..n`. */
  lemma {:induction false} StarRowCount(n: nat, filled: int)
    ensures FilledCount(StarRow(n, filled)) == Clamp(filled, 0, n)
  {
    if n > 0 {
      StarRowCount(n - 1, filled);
      var r := StarRow(n, filled);
      assert r[..n - 1] == StarRow(n - 1, filled);
    }
  }
}
