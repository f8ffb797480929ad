/**
 * The few Python `str` operations the claim workflow relies on: substring
 * membership (`pat in s`), `split`, `strip`, `upper` and `lower`.
 * Strings are sequences of Unicode scalar values, as Python's are.
 */
module Text {
  import opened Wrappers

  /** `pat` occurs in `s` starting at index `i`. */
  predicate IsAt(s: string, pat: string, i: int) {
    0 <= i && i + |pat| <= |s| && s[i..i + |pat|] == pat
  }

  /** Python's `pat in s`. */
  predicate Contains(s: string, pat: string)
    decreases |s|
  {
    if |s| < |pat| then false
    else if s[..|pat|] == pat then true
    else Contains(s[1..], pat)
  }

  /** An occurrence in a suffix is an occurrence in the whole string, shifted. */
  lemma IsAtShift(s: string, pat: string, m: int, j: int)
    requires 0 <= m <= |s| && 0 <= j
    ensures IsAt(s[m..], pat, j) <==> IsAt(s, pat, m + j)
  {
    if m + j + |pat| <= |s| {
      assert s[m..][j..j + |pat|] == s[m + j..m + j + |pat|];
    }
  }

  /** An occurrence inside a substring is an occurrence in the whole string. */
  lemma IsAtInside(s: string, t: string, i: int, pat: string, j: int)
    requires IsAt(s, t, i) && IsAt(t, pat, j)
    ensures IsAt(s, pat, i + j)
  {
    forall m | 0 <= m < |pat| ensures s[i + j + m] == pat[m] {
      IsAtChar(s, t, i, j + m);
      IsAtChar(t, pat, j, m);
    }
    assert s[i + j..i + j + |pat|] == pat;
  }

  /** Each character of an occurrence sits at the matching index of the string. */
  lemma IsAtChar(s: string, pat: string, i: int, m: int)
    requires IsAt(s, pat, i) && 0 <= m < |pat|
    ensures s[i + m] == pat[m]
  {
    assert s[i..i + |pat|][m] == s[i + m];
  }

  /** `in` holds exactly when some index carries an occurrence. */
  lemma {:induction false} ContainsIff(s: string, pat: string)
    ensures Contains(s, pat) <==> exists i :: IsAt(s, pat, i)
    decreases |s|
  {
    if |s| < |pat| {
      forall i | IsAt(s, pat, i) ensures false { }
    } else if s[..|pat|] == pat {
      assert IsAt(s, pat, 0);
    } else {
      ContainsIff(s[1..], pat);
      if Contains(s[1..], pat) {
        var j :| IsAt(s[1..], pat, j);
        IsAtShift(s, pat, 1, j);
      } else {
        forall i | IsAt(s, pat, i) ensures false {
          assert i != 0;
          IsAtShift(s, pat, 1, i - 1);
        }
      }
    }
  }

  /** The first occurrence of `pat` at or after `from` (Python's `s.find(pat, from)`). */
  function FindFrom(s: string, pat: string, from: nat): (r: Option<nat>)
    requires from <= |s|
    ensures r.Some? ==> from <= r.value && IsAt(s, pat, r.value)
    ensures r.Some? ==> forall j :: from <= j < r.value ==> !IsAt(s, pat, j)
    ensures r.None? ==> forall j :: from <= j ==> !IsAt(s, pat, j)
    decreases |s| - from
  {
    if from + |pat| > |s| then None
    else if s[from..from + |pat|] == pat then Some(from)
    else FindFrom(s, pat, from + 1)
  }

  /** The last occurrence of `pat` at or before `upTo`. */
  function FindLastUpTo(s: string, pat: string, upTo: nat): (r: Option<nat>)
    ensures r.Some? ==> r.value <= upTo && IsAt(s, pat, r.value)
    ensures r.Some? ==> forall j :: r.value < j <= upTo ==> !IsAt(s, pat, j)
    ensures r.None? ==> forall j :: 0 <= j <= upTo ==> !IsAt(s, pat, j)
    decreases upTo
  {
    if IsAt(s, pat, upTo) then Some(upTo)
    else if upTo == 0 then None
    else FindLastUpTo(s, pat, upTo - 1)
  }

  /** The last occurrence of `pat` in `s` (Python's `s.rfind(pat)`). */
  function LastIndexOf(s: string, pat: string): (r: Option<nat>)
    ensures r.Some? ==> IsAt(s, pat, r.value) && forall j :: r.value < j ==> !IsAt(s, pat, j)
    ensures r.None? ==> forall j :: !IsAt(s, pat, j)
  {
    if |pat| > |s| then None else FindLastUpTo(s, pat, |s| - |pat|)
  }

  /** Python's `s.split(sep)` for a non-empty separator: cut at each occurrence, left to right. */
  function Split(s: string, sep: string): (parts: seq<string>)
    requires |sep| > 0
    ensures |parts| >= 1
  {
    SplitFrom(s, sep, 0)
  }

  /** The pieces of `s[from..]`, searching `s` for the separator from `from` on. */
  function SplitFrom(s: string, sep: string, from: nat): (parts: seq<string>)
    requires |sep| > 0 && from <= |s|
    ensures |parts| >= 1
    decreases |s| - from
  {
    match FindFrom(s, sep, from)
    case None => [s[from..]]
    case Some(i) => [s[from..i]] + SplitFrom(s, sep, i + |sep|)
  }

  /** Python's `sep.join(parts)`. */
  function Join(parts: seq<string>, sep: string): string
    requires |parts| >= 1
  {
    if |parts| == 1 then parts[0] else parts[0] + sep + Join(parts[1..], sep)
  }

  /** Python's `parts[-1]`. */
  function Last(parts: seq<string>): string
    requires |parts| >= 1
  {
    parts[|parts| - 1]
  }

  /** Splitting loses nothing: joining the pieces with the separator gives the string back. */
  lemma JoinSplit(s: string, sep: string)
    requires |sep| > 0
    ensures Join(Split(s, sep), sep) == s
  {
    JoinSplitFrom(s, sep, 0);
  }

  /** Joining the pieces found from `from` on gives back the text from `from` on. */
  lemma {:induction false} JoinSplitFrom(s: string, sep: string, from: nat)
    requires |sep| > 0 && from <= |s|
    ensures Join(SplitFrom(s, sep, from), sep) == s[from..]
    decreases |s| - from
  {
    match FindFrom(s, sep, from)
    case None =>
    case Some(i) =>
      var m := i + |sep|;
      var rest := SplitFrom(s, sep, m);
      var parts := [s[from..i]] + rest;
      assert SplitFrom(s, sep, from) == parts;
      assert parts[1..] == rest;
      JoinSplitFrom(s, sep, m);
      assert s[i..m] == sep;
      assert s[from..] == s[from..i] + s[i..m] + s[m..];
  }

  /** The first character of `sep` occurs nowhere else in it, so two occurrences never overlap. */
  predicate FirstCharUnique(sep: string) {
    |sep| > 0 && forall d :: 0 < d < |sep| ==> sep[d] != sep[0]
  }

  lemma NoOverlap(s: string, sep: string, i: int, j: int)
    requires FirstCharUnique(sep) && IsAt(s, sep, i) && IsAt(s, sep, j) && i < j
    ensures i + |sep| <= j
  {
    if j < i + |sep| {
      IsAtChar(s, sep, i, j - i);
      IsAtChar(s, sep, j, 0);
      assert false;
    }
  }

  /**
   * With a separator that cannot overlap itself, the last piece of a split is
   * exactly the text after the last occurrence of the separator.
   */
  lemma SplitLastAfterLastOccurrence(s: string, sep: string, k: int)
    requires FirstCharUnique(sep)
    requires IsAt(s, sep, k) && forall j :: k < j ==> !IsAt(s, sep, j)
    ensures Last(Split(s, sep)) == s[k + |sep|..]
  {
    LastOfSplitFrom(s, sep, 0);
    LastStartAfterLast(s, sep, 0, k);
  }

  /** Where the last piece of a split from `from` starts: after the last separator found. */
  function LastStart(s: string, sep: string, from: nat): (r: nat)
    requires |sep| > 0 && from <= |s|
    ensures from <= r <= |s|
    decreases |s| - from
  {
    match FindFrom(s, sep, from)
    case None => from
    case Some(i) => LastStart(s, sep, i + |sep|)
  }

  /** The last piece of a split is the text from where the last piece starts. */
  lemma {:induction false} LastOfSplitFrom(s: string, sep: string, from: nat)
    requires |sep| > 0 && from <= |s|
    ensures Last(SplitFrom(s, sep, from)) == s[LastStart(s, sep, from)..]
    decreases |s| - from
  {
    match FindFrom(s, sep, from)
    case None =>
    case Some(i) =>
      LastCons(s[from..i], SplitFrom(s, sep, i + |sep|));
      LastOfSplitFrom(s, sep, i + |sep|);
  }

  /** Searching from at or before the last occurrence, the last piece starts right after it. */
  lemma {:induction false} LastStartAfterLast(s: string, sep: string, from: nat, k: int)
    requires FirstCharUnique(sep) && from <= k
    requires IsAt(s, sep, k) && forall j :: k < j ==> !IsAt(s, sep, j)
    ensures LastStart(s, sep, from) == k + |sep|
    decreases |s| - from
  {
    var found := FindFrom(s, sep, from);
    assert found.Some?;
    var i := found.value;
    var m := i + |sep|;
    assert LastStart(s, sep, from) == LastStart(s, sep, m);
    if i < k {
      NoOverlap(s, sep, i, k);
      LastStartAfterLast(s, sep, m, k);
    } else {
      assert FindFrom(s, sep, m).None?;
      assert LastStart(s, sep, m) == m;
    }
  }

  /** Putting a piece in front does not change the last piece. */
  lemma LastCons(a: string, rest: seq<string>)
    requires |rest| >= 1
    ensures Last([a] + rest) == Last(rest)
  {
  }


  /** No occurrence after `k` in `s` means none after `k - m` in the suffix from `m`. */
  lemma NoLaterInSuffix(s: string, sep: string, m: int, k: int)
    requires 0 <= m <= |s|
    requires forall j :: k < j ==> !IsAt(s, sep, j)
    ensures forall j :: k - m < j ==> !IsAt(s[m..], sep, j)
  {
    forall j | k - m < j ensures !IsAt(s[m..], sep, j) {
      if 0 <= j {
        IsAtShift(s, sep, m, j);
      }
    }
  }

  /** Python's `str.isspace` for one character: the Unicode whitespace characters. */
  predicate IsSpace(c: char) {
    c == ' ' || ('\t' <= c <= '\r') || ('\U{1c}' <= c <= '\U{1f}') || c == '\U{85}' || c == '\U{a0}'
    || c == '\U{1680}' || ('\U{2000}' <= c <= '\U{200a}') || c == '\U{2028}' || c == '\U{2029}'
    || c == '\U{202f}' || c == '\U{205f}' || c == '\U{3000}'
  }

  /** Python's `s.lstrip()`. */
  function TrimStart(s: string): (r: string)
    ensures |r| <= |s| && r == s[|s| - |r|..]
    ensures forall k :: 0 <= k < |s| - |r| ==> IsSpace(s[k])
    ensures r == [] || !IsSpace(r[0])
    decreases |s|
  {
    if |s| > 0 && IsSpace(s[0]) then TrimStart(s[1..]) else s
  }

  /** Python's `s.rstrip()`. */
  function TrimEnd(s: string): (r: string)
    ensures |r| <= |s| && r == s[..|r|]
    ensures forall k :: |r| <= k < |s| ==> IsSpace(s[k])
    ensures r == [] || !IsSpace(r[|r| - 1])
    decreases |s|
  {
    if |s| > 0 && IsSpace(s[|s| - 1]) then TrimEnd(s[..|s| - 1]) else s
  }

  /** Python's `s.strip()`. */
  function Strip(s: string): string {
    TrimEnd(TrimStart(s))
  }

  /** Where the text kept by `strip` starts in the original string. */
  function StripStart(s: string): nat {
    |s| - |TrimStart(s)|
  }

  /** The stripped text sits in the original where the leading whitespace ends. */
  lemma StripAt(s: string)
    ensures IsAt(s, Strip(s), StripStart(s))
  {
    var a := TrimStart(s);
    var r := TrimEnd(a);
    PrefixOfSuffix(s, |s| - |a|, |r|);
  }

  /** A prefix of a suffix is a slice of the whole. */
  lemma PrefixOfSuffix(s: string, i: int, n: int)
    requires 0 <= i && 0 <= n && i + n <= |s|
    ensures s[i..][..n] == s[i..i + n]
  {
  }



  /** Everything after the stripped text is whitespace. */
  lemma StripTrailing(s: string)
    ensures forall k :: StripStart(s) + |Strip(s)| <= k < |s| ==> IsSpace(s[k])
  {
    var a := TrimStart(s);
    var r := TrimEnd(a);
    var i := |s| - |a|;
    forall k | i + |r| <= k < |s| ensures IsSpace(s[k]) {
      assert a[k - i] == s[k];
    }
  }

  /**
   * `strip` keeps one contiguous piece of the string, removes only whitespace
   * around it, and leaves no whitespace at either end.
   */
  lemma StripSpec(s: string)
    ensures IsAt(s, Strip(s), StripStart(s))
    ensures forall k :: 0 <= k < StripStart(s) ==> IsSpace(s[k])
    ensures forall k :: StripStart(s) + |Strip(s)| <= k < |s| ==> IsSpace(s[k])
    ensures Strip(s) == [] || (!IsSpace(Strip(s)[0]) && !IsSpace(Strip(s)[|Strip(s)| - 1]))
  {
    StripAt(s);
    StripTrailing(s);
    var a := TrimStart(s);
    var r := TrimEnd(a);
    if r != [] {
      assert r[0] == a[0];
    }
  }

  /** A word preceded by one space strips to the word. */
  lemma StripSpacedWord(w: string)
    requires w != [] && !IsSpace(w[0]) && !IsSpace(w[|w| - 1])
    ensures Strip(" " + w) == w
  {
    var s := " " + w;
    assert IsSpace(s[0]);
    assert s[1..] == w;
    assert TrimStart(s) == TrimStart(w);
    assert TrimStart(w) == w;
    assert TrimEnd(w) == w;
  }

  /** Stripping an already stripped string changes nothing. */
  lemma StripIdempotent(s: string)
    ensures Strip(Strip(s)) == Strip(s)
  {
    StripSpec(s);
    var t := Strip(s);
    if t != [] {
      assert TrimStart(t) == t;
      assert TrimEnd(t) == t;
    }
  }

  /** Python's `str.upper` for one character, over the characters whose upper case is one character of ASCII. */
  function UpperChar(c: char): char {
    if 'a' <= c <= 'z' then (c as int - 32) as char
    else if c == '\U{131}' then 'I'   // dotless i
    else if c == '\U{17f}' then 'S'   // long s
    else c
  }

  /** Python's `str.lower` for one character, over the characters whose lower case is one character of ASCII. */
  function LowerChar(c: char): char {
    if 'A' <= c <= 'Z' then (c as int + 32) as char
    else if c == '\U{212a}' then 'k' // Kelvin sign
    else c
  }

  function Upper(s: string): (r: string)
    ensures |r| == |s|
  {
    seq(|s|, i requires 0 <= i < |s| => UpperChar(s[i]))
  }

  function Lower(s: string): (r: string)
    ensures |r| == |s|
  {
    seq(|s|, i requires 0 <= i < |s| => LowerChar(s[i]))
  }

  /** Lower-casing keeps an occurrence where it was, lower-cased. */
  lemma LowerIsAt(s: string, pat: string, i: int)
    requires IsAt(s, pat, i)
    ensures IsAt(Lower(s), Lower(pat), i)
  {
    forall m | 0 <= m < |pat| ensures Lower(s)[i + m] == Lower(pat)[m] {
      IsAtChar(s, pat, i, m);
    }
    assert Lower(s)[i..i + |pat|] == Lower(pat);
  }

  /** Upper-casing keeps an occurrence where it was, upper-cased. */
  lemma UpperIsAt(s: string, pat: string, i: int)
    requires IsAt(s, pat, i)
    ensures IsAt(Upper(s), Upper(pat), i)
  {
    forall m | 0 <= m < |pat| ensures Upper(s)[i + m] == Upper(pat)[m] {
      IsAtChar(s, pat, i, m);
    }
    assert Upper(s)[i..i + |pat|] == Upper(pat);
  }

  /** An ASCII capital other than `I` and `S` comes only from itself or its lower case. */
  lemma UpperCharInverse(c: char, u: char)
    requires 'A' <= u <= 'Z' && u != 'I' && u != 'S' && UpperChar(c) == u
    ensures c == u || c == (u as int + 32) as char
  {
  }

  /** An ASCII small letter other than `k` comes only from itself or its upper case. */
  lemma LowerCharInverse(c: char, l: char)
    requires 'a' <= l <= 'z' && l != 'k' && LowerChar(c) == l
    ensures c == l || c == (l as int - 32) as char
  {
  }

  /** A string contains each of its middle parts. */
  lemma ContainsInMiddle(a: string, x: string, b: string)
    ensures Contains(a + x + b, x)
  {
    var s := a + x + b;
    assert s[|a|..|a| + |x|] == x;
    assert IsAt(s, x, |a|);
    ContainsIff(s, x);
  }

  /** A string occurs at the start of any string it begins. */
  lemma PrefixIsAt(a: string, b: string)
    ensures IsAt(a + b, a, 0)
  {
    assert (a + b)[..|a|] == a;
  }

  /** Stripping cannot create an occurrence: text without `pat` stays without it. */
  lemma StripKeepsAbsence(t: string, pat: string)
    requires forall j :: 0 <= j ==> !IsAt(t, pat, j)
    ensures !Contains(Strip(t), pat)
  {
    var e := Strip(t);
    StripAt(t);
    ContainsIff(e, pat);
    forall j | IsAt(e, pat, j) ensures false {
      IsAtInside(t, e, StripStart(t), pat, j);
    }
  }
}
