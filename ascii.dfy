/**
 * Case-insensitive substring search, as done by `a.toLowerCase().includes(b.toLowerCase())`
 * in the dashboard and `b.lower() in a.lower()` in the headline scraper.
 * Only ASCII letters are folded.
 */
module Ascii {

  /** ASCII lower-casing of one character. */
  function Lower(c: char): (l: char)
    ensures !('A' <= l <= 'Z')
    ensures 'A' <= c <= 'Z' ==> l as int == c as int + 32
    ensures !('A' <= c <= 'Z') ==> l == c
  {
    if 'A' <= c <= 'Z' then (c as int + 32) as char else c
  }

  /** ASCII lower-casing of a string, character by character. */
  function LowerStr(s: string): (r: string)
    ensures |r| == |s|
    ensures forall i :: 0 <= i < |s| ==> r[i] == Lower(s[i]) && !('A' <= r[i] <= 'Z')
  {
    seq(|s|, i requires 0 <= i < |s| => Lower(s[i]))
  }

  /** `n` occurs in `h` starting at index `i`. */
  predicate OccursAt(h: string, n: string, i: nat)
  {
    i + |n| <= |h| && h[i..i + |n|] == n
  }

  /** Substring test (`includes` / Python `in`), by trying every start position left to right. */
  function Contains(h: string, n: string): (r: bool)
    ensures r ==> |n| <= |h|
    decreases |h|
  {
    (|n| <= |h| && h[..|n|] == n) || (|h| > 0 && Contains(h[1..], n))
  }

  /** An occurrence in the tail of `h` is an occurrence in `h` one position further on. */
  lemma OccursInTail(h: string, n: string, i: nat)
    requires |h| > 0
    ensures OccursAt(h[1..], n, i) <==> OccursAt(h, n, i + 1)
  {
    if i + 1 + |n| <= |h| {
      assert h[1..][i..i + |n|] == h[i + 1..i + 1 + |n|];
    }
  }

  /** Contains holds exactly when `n` occurs somewhere in `h`. */
  lemma {:induction false} ContainsIff(h: string, n: string)
    ensures Contains(h, n) <==> exists i: nat :: OccursAt(h, n, i)
    decreases |h|
  {
    if |n| <= |h| && h[..|n|] == n {
      assert OccursAt(h, n, 0);
    } else if |h| == 0 {
      assert forall i: nat :: !OccursAt(h, n, i);
    } else {
      assert !OccursAt(h, n, 0);
      ContainsIff(h[1..], n);
      if Contains(h[1..], n) {
        var i: nat :| OccursAt(h[1..], n, i);
        OccursInTail(h, n, i);
      } else {
        forall i: nat | OccursAt(h, n, i) ensures false {
          OccursInTail(h, n, i - 1);
        }
      }
    }
  }

  /** The empty string occurs in every string. */
  lemma EmptyContained(h: string)
    ensures Contains(h, "")
  {
    assert h[..0] == "";
  }

  /** Case-insensitive containment. */
  function ContainsIgnoreCase(h: string, n: string): (b: bool)
    ensures b ==> |n| <= |h|
  {
    Contains(LowerStr(h), LowerStr(n))
  }

  /** An empty search term matches everything. */
  lemma EmptyMatchesAll(h: string)
    ensures ContainsIgnoreCase(h, "")
  {
    EmptyContained(LowerStr(h));
  }
}
