/** Character classes and string operations that the assistant applies to utterances. */
module Text {

  /** `str.lower()` restricted to the ASCII letters. */
  function LowerChar(c: char): char
  {
    if 'A' <= c <= 'Z' then (c as int + 32) as char else c
  }

  /** `str.upper()` restricted to the ASCII letters. */
  function UpperChar(c: char): char
  {
    if 'a' <= c <= 'z' then (c as int - 32) as char else c
  }

  /** `s.lower()`: every character lowered, nothing else changed. */
  function Lower(s: string): (r: string)
    ensures |r| == |s|
    ensures forall i :: 0 <= i < |s| ==> r[i] == LowerChar(s[i])
  {
    seq(|s|, i requires 0 <= i < |s| => LowerChar(s[i]))
  }

  /** `w.capitalize()`: first character upper case, the others lower case. */
  function Capitalize(w: string): (r: string)
    ensures |r| == |w|
    ensures |w| > 0 ==> r[0] == UpperChar(w[0]) && r[1..] == Lower(w[1..])
  {
    if w == [] then [] else [UpperChar(w[0])] + Lower(w[1..])
  }

  /** The characters Python's `str.isspace()` accepts; `\s` in a `str` regex and `str.strip()` use the same set. */
  predicate IsSpace(c: char)
  {
    var n := c as int;
    (0x09 <= n <= 0x0D) || (0x1C <= n <= 0x20) || n == 0x85 || n == 0xA0 || n == 0x1680
    || (0x2000 <= n <= 0x200A) || n == 0x2028 || n == 0x2029 || n == 0x202F || n == 0x205F || n == 0x3000
  }

  /** An ASCII decimal digit. */
  predicate IsDigit(c: char)
  {
    '0' <= c <= '9'
  }

  /** The numeric value of a digit character. */
  function DigitValue(c: char): (r: nat)
    ensures IsDigit(c) ==> r == c as int - '0' as int && r < 10
  {
    if IsDigit(c) then c as int - '0' as int else 0
  }

  /** `int(d)` for a string of decimal digits, most significant digit first. */
  function DigitsValue(d: string): nat
  {
    if d == [] then 0 else 10 * DigitsValue(d[..|d| - 1]) + DigitValue(d[|d| - 1])
  }

  /** `w` occurs in `s` starting at index `i`. */
  predicate HasAt(s: string, w: string, i: int)
  {
    0 <= i && i + |w| <= |s| && s[i..i + |w|] == w
  }

  /** Python's `w in s` for strings: a substring test, not a word test. */
  predicate Contains(s: string, w: string)
  {
    exists i | 0 <= i <= |s| - |w| :: HasAt(s, w, i)
  }

  /** The lower-cased text from index `i` on starts with `w` (`w` is given in lower case). */
  predicate LowerHasAt(s: string, w: string, i: nat)
  {
    i + |w| <= |s| && Lower(s[i..i + |w|]) == w
  }

  /** A case-insensitive literal cannot start where its first letter is missing. */
  lemma NotLowerHasAt(s: string, w: string, i: nat)
    requires |w| > 0 && i < |s| && LowerChar(s[i]) != w[0]
    ensures !LowerHasAt(s, w, i)
  {
    if i + |w| <= |s| {
      assert Lower(s[i..i + |w|])[0] == LowerChar(s[i]);
    }
  }

  /** A literal cannot start where its first character is missing. */
  lemma NotHasAt(s: string, w: string, i: nat)
    requires |w| > 0 && i < |s| && s[i] != w[0]
    ensures !HasAt(s, w, i)
  {
    if i + |w| <= |s| {
      assert s[i..i + |w|][0] == s[i];
    }
  }

  /** A lower-case word cannot occur in the lower-cased text when one of its letters is absent in both cases. */
  lemma LetterMissing(s: string, w: string, k: nat)
    requires k < |w| && 'a' <= w[k] <= 'z'
    requires forall j | 0 <= j < |s| :: s[j] != w[k] && s[j] != UpperChar(w[k])
    ensures !Contains(Lower(s), w)
  {
    forall i | 0 <= i <= |Lower(s)| - |w| ensures !HasAt(Lower(s), w, i) {
      var c := s[i + k];
      assert c != w[k] && c != UpperChar(w[k]);
      assert LowerChar(c) != w[k];
      assert Lower(s)[i..i + |w|][k] == LowerChar(c);
    }
  }

  /** `sep.join(items)`. */
  function Join(sep: string, items: seq<string>): string
  {
    if |items| == 0 then ""
    else if |items| == 1 then items[0]
    else items[0] + sep + Join(sep, items[1..])
  }

  /** Lowering is idempotent. */
  lemma LowerLower(s: string)
    ensures Lower(Lower(s)) == Lower(s)
  {
    assert forall i :: 0 <= i < |s| ==> LowerChar(LowerChar(s[i])) == LowerChar(s[i]);
  }

  /** An occurrence of `w` in `b` is also an occurrence in `a + b`, shifted by `|a|`. */
  lemma ContainsInSuffix(a: string, b: string, w: string)
    requires Contains(b, w)
    ensures Contains(a + b, w)
  {
    var i :| 0 <= i <= |b| - |w| && HasAt(b, w, i);
    assert (a + b)[|a| + i..|a| + i + |w|] == b[i..i + |w|];
    assert HasAt(a + b, w, |a| + i);
  }

  /** An occurrence of `w` in `a` is also an occurrence in `a + b`. */
  lemma ContainsInPrefix(a: string, b: string, w: string)
    requires Contains(a, w)
    ensures Contains(a + b, w)
  {
    var i :| 0 <= i <= |a| - |w| && HasAt(a, w, i);
    assert (a + b)[i..i + |w|] == a[i..i + |w|];
    assert HasAt(a + b, w, i);
  }

  /** Every string contains itself. */
  lemma ContainsSelf(w: string)
    ensures Contains(w, w)
  {
    assert w[0..|w|] == w;
    assert HasAt(w, w, 0);
  }

  /** An occurrence of `w` inside an occurrence of `v` is an occurrence of `w`. */
  lemma ContainsTransitive(s: string, v: string, w: string)
    requires Contains(s, v) && Contains(v, w)
    ensures Contains(s, w)
  {
    var i :| 0 <= i <= |s| - |v| && HasAt(s, v, i);
    var j :| 0 <= j <= |v| - |w| && HasAt(v, w, j);
    forall k | 0 <= k < |w| ensures s[i + j + k] == w[k] {
      assert s[i + j + k] == s[i..i + |v|][j + k] == v[j + k] == v[j..j + |w|][k];
    }
    assert s[i + j..i + j + |w|] == w;
    assert HasAt(s, w, i + j);
  }

  /** Both ends of a three-part concatenation occur in it. */
  lemma ContainsBothEnds(a: string, sep: string, b: string)
    ensures Contains(a + sep + b, a) && Contains(a + sep + b, b)
  {
    ContainsSelf(a);
    ContainsSelf(b);
    ContainsInPrefix(a, sep + b, a);
    assert a + sep + b == a + (sep + b);
    ContainsInSuffix(a + sep, b, b);
  }

  /** A part of one item of a join occurs in the joined string. */
  lemma JoinContainsPart(sep: string, items: seq<string>, k: nat, w: string)
    requires k < |items| && Contains(items[k], w)
    ensures Contains(Join(sep, items), w)
  {
    JoinContainsItem(sep, items, k);
    ContainsTransitive(Join(sep, items), items[k], w);
  }

  /** An occurrence at a known index is an occurrence. */
  lemma ContainsAt(s: string, w: string, i: nat)
    requires HasAt(s, w, i)
    ensures Contains(s, w)
  {
  }


  /** An occurrence inside a slice is an occurrence in the whole string, shifted by the slice's start. */
  lemma HasAtInSlice(s: string, i: nat, j: nat, w: string, c: nat)
    requires i <= j <= |s| && HasAt(s[i..j], w, c)
    ensures HasAt(s, w, i + c)
  {
    forall m | 0 <= m < |w| ensures s[i + c + m] == w[m] {
      assert s[i..j][c..c + |w|][m] == w[m];
    }
    assert s[i + c..i + c + |w|] == w;
  }

  /** Every item of a join occurs in the joined string. */
  lemma {:induction false} JoinContainsItem(sep: string, items: seq<string>, k: nat)
    requires k < |items|
    ensures Contains(Join(sep, items), items[k])
  {
    if |items| == 1 {
      ContainsSelf(items[0]);
    } else if k == 0 {
      ContainsSelf(items[0]);
      ContainsInPrefix(items[0], sep + Join(sep, items[1..]), items[0]);
      assert Join(sep, items) == items[0] + (sep + Join(sep, items[1..]));
    } else {
      JoinContainsItem(sep, items[1..], k - 1);
      ContainsInSuffix(items[0] + sep, Join(sep, items[1..]), items[k]);
    }
  }
}
