/**
  The string operations of Python's `str` that the scripts rely on:
  `strip`, the `in` substring test, `replace(pat, "")`, `split(c)`,
  `sep.join(parts)` and `int(s)` restricted to decimal digit strings.
 */
module Text {
  import opened Outcomes

  // ---------------------------------------------------------------------
  // Whitespace and str.strip
  // ---------------------------------------------------------------------

  /**
    The characters for which Python's `str.isspace()` holds, by code point:
    tab to carriage return, the four separators 0x1C-0x1F and the space,
    then the Unicode spaces above Latin-1.
   */
  predicate IsSpace(c: char) {
    if c <= ' ' then
      ('\t' <= c <= '\r') || ('\U{1C}' <= c)
    else
      c >= '\U{85}' && IsWideSpace(c)
  }

  /** The whitespace characters from code point 0x85 up. */
  predicate IsWideSpace(c: char) {
    || c == '\U{85}' || c == '\U{A0}' || c == '\U{1680}'
    || ('\U{2000}' <= c <= '\U{200A}')
    || c == '\U{2028}' || c == '\U{2029}' || c == '\U{202F}' || c == '\U{205F}' || c == '\U{3000}'
  }

  /** Every character of `s` is whitespace. */
  predicate AllSpace(s: string) {
    forall k :: 0 <= k < |s| ==> IsSpace(s[k])
  }

  /** `s[lo..hi]` is a run of whitespace. */
  predicate SpacesBetween(s: string, lo: int, hi: int) {
    0 <= lo <= hi <= |s| && forall k :: lo <= k < hi ==> IsSpace(s[k])
  }

  /** The first position from `lo` on that does not hold whitespace, or `|s|`. */
  function FirstKept(s: string, lo: nat): (i: nat)
    requires lo <= |s|
    ensures lo <= i <= |s|
    ensures forall k :: lo <= k < i ==> IsSpace(s[k])
    ensures i == |s| || !IsSpace(s[i])
    decreases |s| - lo
  {
    if lo < |s| && IsSpace(s[lo]) then FirstKept(s, lo + 1) else lo
  }

  /** The end of `s[lo..hi]` once the whitespace it ends with is cut off. */
  function KeptEnd(s: string, lo: nat, hi: nat): (j: nat)
    requires lo <= hi <= |s|
    ensures lo <= j <= hi
    ensures forall k :: j <= k < hi ==> IsSpace(s[k])
    ensures j == lo || !IsSpace(s[j - 1])
    decreases hi - lo
  {
    if lo < hi && IsSpace(s[hi - 1]) then KeptEnd(s, lo, hi - 1) else hi
  }

  /** Python's `s.strip()`: `s` without its leading and trailing whitespace. */
  function Strip(s: string): (r: string)
    ensures r == [] <==> AllSpace(s)
    ensures r != [] ==> !IsSpace(r[0]) && !IsSpace(r[|r| - 1])
    ensures exists i :: 0 <= i <= |s| - |r| && r == s[i..i + |r|] && SpacesBetween(s, 0, i) && SpacesBetween(s, i + |r|, |s|)
  {
    var i := FirstKept(s, 0);
    var j := KeptEnd(s, i, |s|);
    var r := s[i..j];
    assert |r| == j - i && r == s[i..i + |r|];
    assert SpacesBetween(s, 0, i) && SpacesBetween(s, i + |r|, |s|);
    r
  }

  /** Stripping a string that neither starts nor ends with whitespace changes nothing. */
  lemma StripUnchanged(s: string)
    requires s == [] || (!IsSpace(s[0]) && !IsSpace(s[|s| - 1]))
    ensures Strip(s) == s
  {
  }

  /** One whitespace character in front of a visible-ended string is all that `strip` removes. */
  lemma StripOneLeadingSpace(c: char, s: string)
    requires IsSpace(c) && |s| > 0 && !IsSpace(s[0]) && !IsSpace(s[|s| - 1])
    ensures Strip([c] + s) == s
  {
    var cs := [c] + s;
    assert cs[1] == s[0] && cs[|cs| - 1] == s[|s| - 1];
    assert FirstKept(cs, 0) == 1;
    assert KeptEnd(cs, 1, |cs|) == |cs|;
    assert cs[1..|cs|] == s;
  }

  /** Stripping is idempotent. */
  lemma StripIdempotent(s: string)
    ensures Strip(Strip(s)) == Strip(s)
  {
    StripUnchanged(Strip(s));
  }

  // ---------------------------------------------------------------------
  // The `in` substring test
  // ---------------------------------------------------------------------

  /** `sub` occurs in `s` starting at index `i`. */
  ghost predicate OccursAt(s: string, sub: string, i: int) {
    0 <= i && i + |sub| <= |s| && s[i..i + |sub|] == sub
  }

  lemma OccursAtShift(s: string, sub: string, i: int)
    requires |s| > 0 && i >= 1
    ensures OccursAt(s, sub, i) <==> OccursAt(s[1..], sub, i - 1)
  {
    if i + |sub| <= |s| {
      assert s[i..i + |sub|] == s[1..][i - 1..i - 1 + |sub|];
    }
  }

  /** Python's `sub in s`. */
  function Contains(s: string, sub: string): (r: bool)
    ensures r <==> exists i :: OccursAt(s, sub, i)
    decreases |s|
  {
    if |sub| > |s| then
      false
    else if s[..|sub|] == sub then
      assert OccursAt(s, sub, 0);
      true
    else
      var r := Contains(s[1..], sub);
      assert r <==> exists i :: OccursAt(s, sub, i) by {
        if r {
          var j :| OccursAt(s[1..], sub, j);
          OccursAtShift(s, sub, j + 1);
        } else {
          forall i | OccursAt(s, sub, i)
            ensures false
          {
            OccursAtShift(s, sub, i);
          }
        }
      }
      r
  }

  /** Surrounding a string with more text never removes an occurrence from it. */
  lemma ContainsInfix(p: string, s: string, q: string, sub: string)
    requires Contains(s, sub)
    ensures Contains(p + s + q, sub)
  {
    var i :| OccursAt(s, sub, i);
    assert (p + s + q)[|p| + i..|p| + i + |sub|] == s[i..i + |sub|];
    assert OccursAt(p + s + q, sub, |p| + i);
  }

  /** A non-empty `sub` whose first character is absent from `s` does not occur in `s`. */
  lemma NotContainsFirstChar(s: string, sub: string)
    requires |sub| > 0 && sub[0] !in s
    ensures !Contains(s, sub)
  {
  }

  // ---------------------------------------------------------------------
  // str.replace(pat, "")
  // ---------------------------------------------------------------------

  /**
    Python's `s.replace(pat, "")`: a single left-to-right scan that deletes
    every non-overlapping occurrence of `pat`; text that the deletion brings
    together is not scanned again. `pat` is always a non-empty literal here.
   */
  function RemoveAll(s: string, pat: string): (r: string)
    requires |pat| > 0
    ensures |r| <= |s|
    decreases |s|
  {
    if |s| < |pat| then
      s
    else if s[..|pat|] == pat then
      assert s == s[..|pat|] + s[|pat|..];
      RemoveAll(s[|pat|..], pat)
    else
      assert s == [s[0]] + s[1..];
      [s[0]] + RemoveAll(s[1..], pat)
  }

  /** `replace(pat, "")` only deletes: every character of the result comes from `s`. */
  lemma {:induction false} RemoveAllOnlyDeletes(s: string, pat: string)
    requires |pat| > 0
    ensures multiset(RemoveAll(s, pat)) <= multiset(s)
    decreases |s|
  {
    if |s| < |pat| {
    } else if s[..|pat|] == pat {
      var rest := s[|pat|..];
      RemoveAllOnlyDeletes(rest, pat);
      assert s == pat + rest;
      assert multiset(s) == multiset(pat) + multiset(rest);
    } else {
      var rest := s[1..];
      RemoveAllOnlyDeletes(rest, pat);
      assert s == [s[0]] + rest;
      assert multiset(s) == multiset([s[0]]) + multiset(rest);
    }
  }

  /** A character that is not part of `pat` keeps its number of occurrences. */
  lemma {:induction false} RemoveAllKeepsOthers(s: string, pat: string, c: char)
    requires |pat| > 0 && c !in pat
    ensures multiset(RemoveAll(s, pat))[c] == multiset(s)[c]
    decreases |s|
  {
    if |s| < |pat| {
    } else if s[..|pat|] == pat {
      var rest := s[|pat|..];
      RemoveAllKeepsOthers(rest, pat, c);
      assert RemoveAll(s, pat) == RemoveAll(rest, pat);
      assert s == pat + rest;
      assert multiset(s) == multiset(pat) + multiset(rest);
      assert multiset(pat)[c] == 0;
    } else {
      var rest := s[1..];
      RemoveAllKeepsOthers(rest, pat, c);
      assert RemoveAll(s, pat) == [s[0]] + RemoveAll(rest, pat);
      assert s == [s[0]] + rest;
      assert multiset(s) == multiset([s[0]]) + multiset(rest);
    }
  }

  /** Removing a one-character pattern deletes exactly every copy of that character. */
  lemma {:induction false} RemoveAllChar(s: string, c: char)
    ensures multiset(RemoveAll(s, [c])) == multiset(s)[c := 0]
    decreases |s|
  {
    if |s| == 0 {
    } else if s[..1] == [c] {
      RemoveAllChar(s[1..], c);
      assert s == [c] + s[1..];
    } else {
      RemoveAllChar(s[1..], c);
      assert s == [s[0]] + s[1..];
    }
  }

  /** A prefix none of whose characters can start `pat` passes through unchanged. */
  lemma {:induction false} RemoveAllSkipsPrefix(s: string, t: string, pat: string)
    requires |pat| > 0 && pat[0] !in s
    ensures RemoveAll(s + t, pat) == s + RemoveAll(t, pat)
    decreases |s|
  {
    var u := s + t;
    if |s| == 0 {
      assert u == t;
    } else if |u| < |pat| {
      assert RemoveAll(t, pat) == t;
    } else {
      assert u[..|pat|][0] == s[0];
      assert u[..|pat|] != pat;
      assert u[1..] == s[1..] + t;
      assert RemoveAll(u, pat) == [s[0]] + RemoveAll(u[1..], pat);
      RemoveAllSkipsPrefix(s[1..], t, pat);
      assert s == [s[0]] + s[1..];
    }
  }

  /** An occurrence of `pat` at the front is deleted and the scan resumes after it. */
  lemma RemoveAllLeading(pat: string, t: string)
    requires |pat| > 0
    ensures RemoveAll(pat + t, pat) == RemoveAll(t, pat)
  {
    var u := pat + t;
    assert u[..|pat|] == pat;
    assert u[|pat|..] == t;
  }

  /** An occurrence of `pat` after a prefix that cannot start `pat` is deleted. */
  lemma RemoveAllAfterPrefix(a: string, pat: string, t: string)
    requires |pat| > 0 && pat[0] !in a
    ensures RemoveAll(a + pat + t, pat) == a + RemoveAll(t, pat)
  {
    assert a + pat + t == a + (pat + t);
    RemoveAllSkipsPrefix(a, pat + t, pat);
    RemoveAllLeading(pat, t);
  }

  /** A string in which `pat` cannot start anywhere is left as it is. */
  lemma NoFirstCharNoChange(s: string, pat: string)
    requires |pat| > 0 && pat[0] !in s
    ensures RemoveAll(s, pat) == s
  {
    RemoveAllSkipsPrefix(s, "", pat);
    assert s + "" == s;
  }

  // ---------------------------------------------------------------------
  // sep.join and str.split
  // ---------------------------------------------------------------------

  /** Python's `sep.join(parts)`: the parts in order, with `sep` between neighbours. */
  function Join(parts: seq<string>, sep: string): string
  {
    if |parts| == 0 then ""
    else if |parts| == 1 then parts[0]
    else parts[0] + sep + Join(parts[1..], sep)
  }

  /** No parts join to the empty string; otherwise a join begins with its first part and ends with its last. */
  lemma {:induction false} JoinEnds(parts: seq<string>, sep: string)
    ensures |parts| == 0 ==> Join(parts, sep) == ""
    ensures |parts| > 0 ==> var r := Join(parts, sep);
              |parts[0]| <= |r| && r[..|parts[0]|] == parts[0]
    ensures |parts| > 0 ==> var r, last := Join(parts, sep), parts[|parts| - 1];
              |last| <= |r| && r[|r| - |last|..] == last
    decreases |parts|
  {
    if |parts| > 1 {
      JoinEnds(parts[1..], sep);
      var rest := Join(parts[1..], sep);
      var r := parts[0] + sep + rest;
      assert r[..|parts[0]|] == parts[0];
      assert r[|r| - |rest|..] == rest;
    }
  }

  /** A join starts with the first character of its first part, when there is one. */
  lemma JoinFirstChar(parts: seq<string>, sep: string)
    requires |parts| > 0 && |parts[0]| > 0
    ensures |Join(parts, sep)| > 0 && Join(parts, sep)[0] == parts[0][0]
  {
  }

  /** A join ends with the last character of its last part, when there is one. */
  lemma {:induction false} JoinLastChar(parts: seq<string>, sep: string)
    requires |parts| > 0 && |parts[|parts| - 1]| > 0
    ensures var j := Join(parts, sep); |j| > 0 && j[|j| - 1] == parts[|parts| - 1][|parts[|parts| - 1]| - 1]
    decreases |parts|
  {
    if |parts| > 1 {
      JoinLastChar(parts[1..], sep);
    }
  }

  /** The line starts with a character `strip` keeps. */
  predicate StartsVisibly(line: string) {
    |line| > 0 && !IsSpace(line[0])
  }

  /** The line ends with a character `strip` keeps. */
  predicate EndsVisibly(line: string) {
    |line| > 0 && !IsSpace(line[|line| - 1])
  }

  /** A join whose first and last characters are visible is left alone by `strip`. */
  lemma StripJoinVisible(parts: seq<string>, sep: string)
    requires |parts| > 0 && StartsVisibly(parts[0]) && EndsVisibly(parts[|parts| - 1])
    ensures Strip(Join(parts, sep)) == Join(parts, sep)
  {
    JoinVisibleEnds(parts, sep);
    StripUnchanged(Join(parts, sep));
  }

  /** A join starts like its first part and ends like its last part. */
  lemma JoinVisibleEnds(parts: seq<string>, sep: string)
    requires |parts| > 0 && StartsVisibly(parts[0]) && EndsVisibly(parts[|parts| - 1])
    ensures StartsVisibly(Join(parts, sep)) && EndsVisibly(Join(parts, sep))
  {
    JoinFirstChar(parts, sep);
    JoinLastChar(parts, sep);
  }

  /** Python's `s.split(c)` for a one-character separator. */
  function Split(s: string, c: char): (r: seq<string>)
    ensures |r| >= 1
    ensures forall k :: 0 <= k < |r| ==> c !in r[k]
    decreases |s|
  {
    if |s| == 0 then
      [""]
    else if s[0] == c then
      [""] + Split(s[1..], c)
    else
      var rest := Split(s[1..], c);
      [[s[0]] + rest[0]] + rest[1..]
  }

  /** `join` undoes `split`: joining the pieces with the separator gives `s` back. */
  lemma {:induction false} JoinSplit(s: string, c: char)
    ensures Join(Split(s, c), [c]) == s
    decreases |s|
  {
    if |s| > 0 {
      var t := s[1..];
      assert s == [s[0]] + t;
      JoinSplit(t, c);
      var rest := Split(t, c);
      SplitCons(s[0], t, c);
      if s[0] == c {
        assert ([""] + rest)[1..] == rest;
      } else {
        var r := [[s[0]] + rest[0]] + rest[1..];
        assert r[1..] == rest[1..];
      }
    }
  }

  /** Splitting a string that has no separator in it gives the string alone. */
  lemma {:induction false} SplitNoSeparator(s: string, c: char)
    requires c !in s
    ensures Split(s, c) == [s]
    decreases |s|
  {
    if |s| > 0 {
      SplitNoSeparator(s[1..], c);
      assert s == [s[0]] + s[1..];
    }
  }

  /** How `split` treats the first character of a non-empty string. */
  lemma SplitCons(x: char, t: string, c: char)
    ensures x == c ==> Split([x] + t, c) == [""] + Split(t, c)
    ensures x != c ==> Split([x] + t, c) == [[x] + Split(t, c)[0]] + Split(t, c)[1..]
  {
    var s := [x] + t;
    assert s[0] == x;
    assert s[1..] == t;
  }

  /** Splitting around one separator splits each side independently. */
  lemma {:induction false} SplitConcat(a: string, b: string, c: char)
    ensures Split(a + [c] + b, c) == Split(a, c) + Split(b, c)
    decreases |a|
  {
    if |a| == 0 {
      assert a + [c] + b == [c] + b;
      SplitCons(c, b, c);
    } else {
      var t := a[1..];
      assert a == [a[0]] + t;
      SplitConcat(t, b, c);
      SplitConcatStep(a[0], t, b, c);
    }
  }

  /** One step of `SplitConcat`: a character in front of both sides. */
  lemma SplitConcatStep(x: char, t: string, b: string, c: char)
    requires Split(t + [c] + b, c) == Split(t, c) + Split(b, c)
    ensures Split([x] + t + [c] + b, c) == Split([x] + t, c) + Split(b, c)
  {
    assert [x] + t + [c] + b == [x] + (t + [c] + b);
    SplitCons(x, t + [c] + b, c);
    SplitCons(x, t, c);
    if x == c {
      PrependPiece(Split(t, c), Split(b, c));
    } else {
      ExtendFirstPiece([x], Split(t, c), Split(b, c));
    }
  }

  lemma PrependPiece(A: seq<string>, B: seq<string>)
    ensures [""] + (A + B) == ([""] + A) + B
  {
  }

  lemma ExtendFirstPiece(x: string, A: seq<string>, B: seq<string>)
    requires |A| > 0
    ensures [x + (A + B)[0]] + (A + B)[1..] == ([x + A[0]] + A[1..]) + B
  {
    assert (A + B)[0] == A[0];
    assert (A + B)[1..] == A[1..] + B;
  }

  /** `split` undoes `join` when no part contains the separator. */
  lemma {:induction false} SplitJoin(parts: seq<string>, c: char)
    requires |parts| >= 1
    requires forall k :: 0 <= k < |parts| ==> c !in parts[k]
    ensures Split(Join(parts, [c]), c) == parts
    decreases |parts|
  {
    if |parts| == 1 {
      SplitNoSeparator(parts[0], c);
    } else {
      SplitJoin(parts[1..], c);
      SplitConcat(parts[0], Join(parts[1..], [c]), c);
      SplitNoSeparator(parts[0], c);
      assert parts == [parts[0]] + parts[1..];
    }
  }

  // ---------------------------------------------------------------------
  // int(s) on decimal digit strings
  // ---------------------------------------------------------------------

  predicate IsDigit(c: char) {
    '0' <= c <= '9'
  }

  /** A non-empty string of ASCII digits (leading zeros allowed, as `int()` allows them). */
  predicate IsDecimal(s: string) {
    |s| > 0 && forall k :: 0 <= k < |s| ==> IsDigit(s[k])
  }

  function DigitValue(c: char): nat
    requires IsDigit(c)
  {
    (c as int) - ('0' as int)
  }

  /** The number a string of digits denotes, most significant digit first. */
  function DigitsValue(s: string): nat
    requires forall k :: 0 <= k < |s| ==> IsDigit(s[k])
    decreases |s|
  {
    if |s| == 0 then 0 else DigitsValue(s[..|s| - 1]) * 10 + DigitValue(s[|s| - 1])
  }

  /** Python's `int(s)`, which succeeds exactly on decimal strings. */
  function ParseNat(s: string): (r: Option<nat>)
    ensures r.Some? <==> IsDecimal(s)
  {
    if IsDecimal(s) then Some(DigitsValue(s)) else None
  }

  function DigitChar(d: nat): (c: char)
    requires d < 10
    ensures IsDigit(c) && DigitValue(c) == d
  {
    ('0' as int + d) as char
  }

  /** Python's `str(n)` for a natural number. */
  function NatToString(n: nat): (s: string)
    ensures IsDecimal(s)
  {
    if n < 10 then [DigitChar(n)] else NatToString(n / 10) + [DigitChar(n % 10)]
  }

  /** `int(str(n)) == n`. */
  lemma {:induction false} ParseNatToString(n: nat)
    ensures ParseNat(NatToString(n)) == Some(n)
  {
    DigitsValueToString(n);
  }

  lemma {:induction false} DigitsValueToString(n: nat)
    ensures DigitsValue(NatToString(n)) == n
  {
    if n >= 10 {
      var s := NatToString(n);
      assert s[..|s| - 1] == NatToString(n / 10);
      DigitsValueToString(n / 10);
    }
  }
}
