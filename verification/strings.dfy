/**
 The parts of Python's `str` that the modelled code relies on: ASCII
 lower-casing, `startswith` / `endswith`, the global `replace`, `isspace`,
 and the code-point order that `sorted` uses on strings.
 */
module Strings {

  /** `c.lower()` for ASCII letters; every other character is left alone. */
  function LowerChar(c: char): char {
    if 'A' <= c <= 'Z' then (c as int + 32) as char else c
  }

  function Lower(s: string): (r: string)
    ensures |r| == |s|
    ensures forall i :: 0 <= i < |s| ==> r[i] == LowerChar(s[i])
  {
    seq(|s|, i requires 0 <= i < |s| => LowerChar(s[i]))
  }

  /** `s.startswith(prefix)`. */
  predicate StartsWith(s: string, prefix: string) {
    |prefix| <= |s| && s[..|prefix|] == prefix
  }

  /** `s.endswith(suffix)`. */
  predicate EndsWith(s: string, suffix: string) {
    |suffix| <= |s| && s[|s| - |suffix|..] == suffix
  }

  /** `t` occurs in `s` starting at index `i`. */
  predicate OccursAt(s: string, t: string, i: int) {
    0 <= i && i + |t| <= |s| && s[i..i + |t|] == t
  }

  predicate Contains(s: string, t: string) {
    exists i | 0 <= i <= |s| :: OccursAt(s, t, i)
  }

  /**
   `s.replace(pat, rep)`: every non-overlapping occurrence of `pat`, scanning
   from the left, is replaced. Only non-empty `pat` strings occur in the model.
   */
  function Replace(s: string, pat: string, rep: string): (r: string)
    requires |pat| > 0
    ensures StartsWith(s, pat) ==> StartsWith(r, rep)
    ensures !Contains(s, pat) ==> r == s
    decreases |s|
  {
    if |s| < |pat| then s
    else if s[..|pat|] == pat then
      assert OccursAt(s, pat, 0);
      rep + Replace(s[|pat|..], pat, rep)
    else
      var rest := Replace(s[1..], pat, rep);
      assert !Contains(s, pat) ==> !Contains(s[1..], pat) by {
        if Contains(s[1..], pat) {
          var i :| 0 <= i <= |s[1..]| && OccursAt(s[1..], pat, i);
          assert s[i + 1..i + 1 + |pat|] == s[1..][i..i + |pat|];
          assert OccursAt(s, pat, i + 1);
        }
      }
      [s[0]] + rest
  }

  /** A pattern that occurs only at the front is replaced there alone. */
  lemma ReplaceOnlyAtFront(s: string, pat: string, rep: string)
    requires |pat| > 0 && StartsWith(s, pat) && !Contains(s[|pat|..], pat)
    ensures Replace(s, pat, rep) == rep + s[|pat|..]
  {
  }

  /** Where `pat` does not start a string, `replace` keeps its first character. */
  lemma ReplaceKeepsFirst(s: string, pat: string, rep: string)
    requires 0 < |pat| <= |s| && !OccursAt(s, pat, 0)
    ensures Replace(s, pat, rep) == [s[0]] + Replace(s[1..], pat, rep)
  {
  }

  /** Regrouping a concatenation of four strings. */
  lemma SeqAssoc(a: string, b: string, c: string, d: string)
    ensures a + (b + c + d) == (a + b) + c + d
  {
  }

  /** Dropping the first character of `p` moves the positions before the occurrence one to the left. */
  lemma NoEarlierOccurrenceShift(p: string, pat: string, rest: string)
    requires |p| > 0
    requires forall j :: 0 <= j < |p| ==> !OccursAt(p + pat + rest, pat, j)
    ensures (p + pat + rest)[1..] == p[1..] + pat + rest
    ensures !OccursAt(p + pat + rest, pat, 0)
    ensures forall j :: 0 <= j < |p| - 1 ==> !OccursAt(p[1..] + pat + rest, pat, j)
  {
    var s := p + pat + rest;
    var t := p[1..] + pat + rest;
    assert s[1..] == t;
    assert !OccursAt(s, pat, 0);
    forall j | 0 <= j < |p| - 1
      ensures !OccursAt(t, pat, j)
    {
      assert !OccursAt(s, pat, j + 1);
      if j + |pat| <= |t| {
        assert t[j..j + |pat|] == s[j + 1..j + 1 + |pat|];
      }
    }
  }

  /**
   The replacement is global and scans from the left: when `pat` first
   occurs after the text `p`, that text is kept, the occurrence becomes
   `rep`, and the rest is replaced in turn.
   */
  lemma {:induction false} ReplaceFirstOccurrence(p: string, pat: string, rep: string, rest: string)
    requires |pat| > 0
    requires forall j :: 0 <= j < |p| ==> !OccursAt(p + pat + rest, pat, j)
    ensures Replace(p + pat + rest, pat, rep) == p + rep + Replace(rest, pat, rep)
    decreases |p|
  {
    var s := p + pat + rest;
    if |p| == 0 {
      assert s == pat + rest && s[..|pat|] == pat && s[|pat|..] == rest;
      assert p + rep == rep;
    } else {
      NoEarlierOccurrenceShift(p, pat, rest);
      ReplaceKeepsFirst(s, pat, rep);
      ReplaceFirstOccurrence(p[1..], pat, rep, rest);
      assert [p[0]] + p[1..] == p;
      SeqAssoc([p[0]], p[1..], rep, Replace(rest, pat, rep));
    }
  }

  /** A text without the first character of `pat` holds no occurrence that starts inside it. */
  lemma NoOccurrenceWithin(p: string, pat: string, rest: string)
    requires |pat| > 0 && pat[0] !in p
    ensures forall j :: 0 <= j < |p| ==> !OccursAt(p + pat + rest, pat, j)
  {
    var s := p + pat + rest;
    forall j | 0 <= j < |p|
      ensures !OccursAt(s, pat, j)
    {
      assert s[j] == p[j];
      if j + |pat| <= |s| {
        assert s[j..j + |pat|][0] == s[j];
      }
    }
  }

  /**
   Two occurrences, the second after a stretch that cannot start one, and
   none after it: both are replaced.
   */
  lemma ReplaceTwoOccurrences(pat: string, a: string, b: string, rep: string)
    requires |pat| > 0 && pat[0] !in a && !Contains(b, pat)
    ensures Replace(pat + (a + pat + b), pat, rep) == rep + (a + rep + b)
  {
    ReplaceLeading(pat, a + pat + b, rep);
    ReplaceAfterClearStretch(pat, a, b, rep);
  }

  /** An occurrence at the front is replaced, and the scan resumes after it. */
  lemma ReplaceLeading(pat: string, rest: string, rep: string)
    requires |pat| > 0
    ensures Replace(pat + rest, pat, rep) == rep + Replace(rest, pat, rep)
  {
    assert (pat + rest)[..|pat|] == pat && (pat + rest)[|pat|..] == rest;
  }

  /** The second half of `ReplaceTwoOccurrences`: the occurrence after `a`, and nothing after it. */
  lemma ReplaceAfterClearStretch(pat: string, a: string, b: string, rep: string)
    requires |pat| > 0 && pat[0] !in a && !Contains(b, pat)
    ensures Replace(a + pat + b, pat, rep) == a + rep + b
  {
    NoOccurrenceWithin(a, pat, b);
    ReplaceFirstOccurrence(a, pat, rep, b);
  }

  /** The characters for which Python's `str.isspace` holds. */
  predicate IsSpaceChar(c: char) {
    || ('\U{0009}' <= c <= '\U{000D}')   // tab, line feed, vertical tab, form feed, carriage return
    || ('\U{001C}' <= c <= '\U{001F}')   // file, group, record and unit separators
    || c == ' ' || c == '\U{0085}' || c == '\U{00A0}' || c == '\U{1680}'
    || ('\U{2000}' <= c <= '\U{200A}')
    || c == '\U{2028}' || c == '\U{2029}' || c == '\U{202F}' || c == '\U{205F}'
    || c == '\U{3000}'
  }

  /** `s.isspace()`: non-empty and made of white space only. */
  predicate IsSpace(s: string) {
    |s| > 0 && forall i :: 0 <= i < |s| ==> IsSpaceChar(s[i])
  }

  /**
   Python's `<` on strings: lexicographic by code point, a proper prefix
   coming first.
   */
  predicate Less(a: string, b: string)
    decreases |a|
  {
    if |a| == 0 then |b| > 0
    else if |b| == 0 then false
    else if a[0] != b[0] then a[0] < b[0]
    else Less(a[1..], b[1..])
  }

  /**
   The order read the usual way: `a` sorts first when it is a proper prefix
   of `b`, or when at the first position where they differ its character is
   the smaller.
   */
  lemma {:induction false} LessMeaning(a: string, b: string)
    ensures Less(a, b) <==>
              (|a| < |b| && a == b[..|a|]) ||
              (exists k :: 0 <= k < |a| && k < |b| && a[..k] == b[..k] && a[k] < b[k])
    decreases |a|
  {
    if |a| == 0 || |b| == 0 {
    } else if a[0] != b[0] {
      forall k | 0 < k < |a| && k < |b|
        ensures a[..k] != b[..k]
      {
        assert a[..k][0] == a[0] && b[..k][0] == b[0];
      }
      if a[0] < b[0] {
        assert a[..0] == b[..0];
      }
      assert |a| < |b| ==> a[0] == a[..|a|][0];
    } else {
      var a', b' := a[1..], b[1..];
      LessMeaning(a', b');
      if |a| < |b| {
        assert a == b[..|a|] <==> a' == b'[..|a'|] by {
          if a' == b'[..|a'|] {
            assert a == [a[0]] + a' && b[..|a|] == [b[0]] + b'[..|a'|];
          }
        }
      }
      if exists k :: 0 <= k < |a'| && k < |b'| && a'[..k] == b'[..k] && a'[k] < b'[k] {
        var k :| 0 <= k < |a'| && k < |b'| && a'[..k] == b'[..k] && a'[k] < b'[k];
        assert a[..k + 1] == [a[0]] + a'[..k] && b[..k + 1] == [b[0]] + b'[..k];
        assert a[k + 1] == a'[k] && b[k + 1] == b'[k];
      }
      if exists k :: 0 <= k < |a| && k < |b| && a[..k] == b[..k] && a[k] < b[k] {
        var k :| 0 <= k < |a| && k < |b| && a[..k] == b[..k] && a[k] < b[k];
        assert k > 0;
        assert a'[..k - 1] == a[..k][1..] && b'[..k - 1] == b[..k][1..];
        assert a'[k - 1] == a[k] && b'[k - 1] == b[k];
      }
    }
  }

  /** `"".isspace()` is false; white space only is true; any other character makes it false. */
  lemma IsSpaceExamples()
    ensures !IsSpace("")
    ensures IsSpace(" \t\n")
    ensures !IsSpace(" x ")
  {
    assert " x "[1] == 'x';
  }

  lemma {:induction false} LessIrreflexive(a: string)
    ensures !Less(a, a)
    decreases |a|
  {
    if |a| > 0 {
      LessIrreflexive(a[1..]);
    }
  }

  lemma {:induction false} LessTransitive(a: string, b: string, c: string)
    requires Less(a, b) && Less(b, c)
    ensures Less(a, c)
    decreases |a|
  {
    if |a| > 0 && a[0] == b[0] && b[0] == c[0] {
      LessTransitive(a[1..], b[1..], c[1..]);
    }
  }

  lemma {:induction false} LessTotal(a: string, b: string)
    requires a != b
    ensures Less(a, b) || Less(b, a)
    decreases |a|
  {
    if |a| > 0 && |b| > 0 && a[0] == b[0] {
      assert a == [a[0]] + a[1..] && b == [b[0]] + b[1..];
      LessTotal(a[1..], b[1..]);
    }
  }

  lemma LessAsymmetric(a: string, b: string)
    requires Less(a, b)
    ensures !Less(b, a)
  {
    if Less(b, a) {
      LessTransitive(a, b, a);
      LessIrreflexive(a);
    }
  }
}
