/**
 * First-match and last-match scanning over a string. Each regular expression of the
 * assistant is written as a matcher `at(s, i)` that says whether the pattern matches
 * when the regex engine tries position `i`, and what it captures; `re.search` then
 * returns the match at the leftmost position where the matcher succeeds.
 */
module Scan {
  import opened Wrappers
  import opened Text

  /** A successful match: where it starts and what it captured. */
  datatype Hit<T> = Hit(pos: nat, value: T)

  /** No position in `[lo, hi)` matches. */
  ghost predicate NoMatchIn<T>(s: string, at: (string, nat) -> Option<T>, lo: nat, hi: nat)
  {
    forall j :: lo <= j < hi ==> at(s, j).None?
  }

  /** The leftmost position at or after `from` where `at` matches (the semantics of `re.search`). */
  function Leftmost<T>(s: string, at: (string, nat) -> Option<T>, from: nat): (r: Option<Hit<T>>)
    ensures r.Some? ==> from <= r.value.pos < |s| && at(s, r.value.pos) == Some(r.value.value)
    ensures r.Some? ==> NoMatchIn(s, at, from, r.value.pos)
    ensures r.None? ==> NoMatchIn(s, at, from, |s|)
    decreases |s| - from
  {
    if from >= |s| then None
    else match at(s, from)
      case Some(v) => Some(Hit(from, v))
      case None => Leftmost(s, at, from + 1)
  }

  /** The rightmost position below `upto` where `at` matches. */
  function Rightmost<T>(s: string, at: (string, nat) -> Option<T>, upto: nat): (r: Option<Hit<T>>)
    ensures r.Some? ==> r.value.pos < upto && r.value.pos < |s| && at(s, r.value.pos) == Some(r.value.value)
    ensures r.Some? ==> NoMatchIn(s, at, r.value.pos + 1, if upto < |s| then upto else |s|)
    ensures r.None? ==> NoMatchIn(s, at, 0, if upto < |s| then upto else |s|)
    decreases upto
  {
    if upto == 0 then None
    else if upto > |s| then Rightmost(s, at, |s|)
    else match at(s, upto - 1)
      case Some(v) => Some(Hit(upto - 1, v))
      case None => Rightmost(s, at, upto - 1)
  }

  /** Two results that both satisfy the leftmost characterisation are equal. */
  lemma LeftmostIsUnique<T>(s: string, at: (string, nat) -> Option<T>, from: nat, p: nat, v: T)
    requires from <= p < |s| && at(s, p) == Some(v) && NoMatchIn(s, at, from, p)
    ensures Leftmost(s, at, from) == Some(Hit(p, v))
  {
  }

  /** Two adjacent ranges without a match make one. */
  lemma NoMatchInJoin<T>(s: string, at: (string, nat) -> Option<T>, lo: nat, mid: nat, hi: nat)
    requires lo <= mid <= hi && NoMatchIn(s, at, lo, mid) && NoMatchIn(s, at, mid, hi)
    ensures NoMatchIn(s, at, lo, hi)
  {
  }

  /** `re.search` from `from`: scans left to right and stops at the first match. */
  method Search<T>(s: string, at: (string, nat) -> Option<T>, from: nat) returns (r: Option<Hit<T>>)
    ensures r == Leftmost(s, at, from)
  {
    var i := from;
    while i < |s|
      invariant Leftmost(s, at, from) == Leftmost(s, at, i)
    {
      var m := at(s, i);
      if m.Some? {
        return Some(Hit(i, m.value));
      }
      i := i + 1;
    }
    return None;
  }

  /** The end of the run of whitespace starting at `i` (`\s*` is greedy). */
  function SkipSpace(s: string, i: nat): (j: nat)
    ensures i <= j
    ensures i <= |s| ==> j <= |s| && (j < |s| ==> !IsSpace(s[j]))
    ensures forall k :: i <= k < j ==> k < |s| && IsSpace(s[k])
    decreases |s| - i
  {
    if i < |s| && IsSpace(s[i]) then SkipSpace(s, i + 1) else i
  }

  /** The end of the run of digits starting at `i` (`\d+` is greedy). */
  function SkipDigits(s: string, i: nat): (j: nat)
    ensures i <= j
    ensures i <= |s| ==> j <= |s| && (j < |s| ==> !IsDigit(s[j]))
    ensures forall k :: i <= k < j ==> k < |s| && IsDigit(s[k])
    decreases |s| - i
  {
    if i < |s| && IsDigit(s[i]) then SkipDigits(s, i + 1) else i
  }
}
