/**
 The list transforms of `pyxa/utils/dataset.py` with the file reading and
 writing taken away: a file is the sequence of its lines (each with its line
 ending, as `readlines` returns them), and the result is the sequence of
 lines written back.
 */
module Dataset {
  import opened Strings
  import opened Lists

  /** Each line comes strictly before the next, in Python's string order. */
  predicate StrictlySorted(s: seq<string>) {
    forall i, j :: 0 <= i < j < |s| ==> Less(s[i], s[j])
  }

  /** Strict order rules out repeats. */
  lemma StrictlySortedIsDistinct(s: seq<string>)
    requires StrictlySorted(s)
    ensures Distinct(s)
  {
    forall i, j | 0 <= i < j < |s|
      ensures s[i] != s[j]
    {
      LessIrreflexive(s[i]);
    }
  }

  /** The number of distinct elements of a repeat-free sequence is its length. */
  lemma {:induction false} DistinctCount<T>(s: seq<T>)
    requires Distinct(s)
    ensures |Elements(s)| == |s|
  {
    if |s| > 0 {
      DistinctCount(s[1..]);
      assert Elements(s) == Elements(s[1..]) + {s[0]};
      assert s[0] !in Elements(s[1..]);
    }
  }

  /** Inserts `x` into a strictly sorted sequence, leaving it unchanged when `x` is already there. */
  function Insert(x: string, s: seq<string>): (r: seq<string>)
    requires StrictlySorted(s)
    ensures StrictlySorted(r)
    ensures Elements(r) == Elements(s) + {x}
  {
    if |s| == 0 then [x]
    else if x == s[0] then s
    else if Less(x, s[0]) then
      assert forall j :: 0 < j < |s| ==> Less(x, s[j]) by {
        forall j | 0 < j < |s| ensures Less(x, s[j]) {
          LessTransitive(x, s[0], s[j]);
        }
      }
      assert Elements([x] + s) == Elements(s) + {x};
      [x] + s
    else
      LessTotal(x, s[0]);
      var tail := Insert(x, s[1..]);
      assert forall y :: y in Elements(tail) ==> Less(s[0], y);
      assert forall j :: 0 <= j < |tail| ==> tail[j] in Elements(tail);
      assert Elements(s) == {s[0]} + Elements(s[1..]);
      assert Elements([s[0]] + tail) == {s[0]} + Elements(tail);
      [s[0]] + tail
  }

  /**
   `sorted(set(lines))`: the distinct lines in increasing order. Built by
   insertion; the lemmas below show that the result is the only strictly
   sorted sequence with these elements.
   */
  function SortLines(lines: seq<string>): (r: seq<string>)
    ensures StrictlySorted(r)
    ensures Elements(r) == Elements(lines)
  {
    if |lines| == 0 then []
    else
      assert Elements(lines) == Elements(lines[1..]) + {lines[0]};
      Insert(lines[0], SortLines(lines[1..]))
  }

  /** Two strictly sorted sequences with the same elements are equal. */
  lemma {:induction false} SortedUnique(a: seq<string>, b: seq<string>)
    requires StrictlySorted(a) && StrictlySorted(b)
    requires Elements(a) == Elements(b)
    ensures a == b
    decreases |a|
  {
    if |b| > 0 {
      assert b[0] in Elements(b);
    }
    if |a| > 0 {
      assert a[0] in Elements(b);
      assert |b| > 0;
      assert b[0] in Elements(a);
      if a[0] != b[0] {
        var i :| 0 <= i < |a| && a[i] == b[0];
        var j :| 0 <= j < |b| && b[j] == a[0];
        assert Less(a[0], a[i]) && Less(b[0], b[j]);
        LessAsymmetric(a[0], b[0]);
        assert false;
      }
      forall y ensures y in Elements(a[1..]) <==> y in Elements(b[1..]) {
        if y in Elements(a[1..]) {
          var i :| 1 <= i < |a| && a[i] == y;
          LessIrreflexive(a[0]);
          assert y != a[0];
          assert y in Elements(b);
        }
        if y in Elements(b[1..]) {
          var j :| 1 <= j < |b| && b[j] == y;
          LessIrreflexive(b[0]);
          assert y != b[0];
          assert y in Elements(a);
        }
      }
      SortedUnique(a[1..], b[1..]);
      assert a == [a[0]] + a[1..] && b == [b[0]] + b[1..];
    }
  }

  /** Sorting depends on the set of lines only, not on their order or repeats. */
  lemma SortLinesOfSameElements(a: seq<string>, b: seq<string>)
    requires Elements(a) == Elements(b)
    ensures SortLines(a) == SortLines(b)
  {
    SortedUnique(SortLines(a), SortLines(b));
  }

  /** Sorting a sorted file changes nothing. */
  lemma SortLinesIdempotent(lines: seq<string>)
    ensures SortLines(SortLines(lines)) == SortLines(lines)
  {
    SortLinesOfSameElements(SortLines(lines), lines);
  }

  /** A strictly sorted file is its own sorted form. */
  lemma SortLinesOfSorted(lines: seq<string>)
    requires StrictlySorted(lines)
    ensures SortLines(lines) == lines
  {
    SortedUnique(SortLines(lines), lines);
  }

  /** The output of `sort_lines` has one line per distinct input line. */
  lemma SortLinesCount(lines: seq<string>)
    ensures |SortLines(lines)| == |Elements(lines)|
  {
    StrictlySortedIsDistinct(SortLines(lines));
    DistinctCount(SortLines(lines));
  }

  /**
   `random.shuffle(list(pool))`: some arrangement of the pool, each element
   once. Which arrangement is left open.
   */
  method Shuffle(pool: set<string>) returns (out: seq<string>)
    ensures Distinct(out)
    ensures Elements(out) == pool
    ensures |out| == |pool|
  {
    out := [];
    var rest := pool;
    while rest != {}
      invariant Distinct(out)
      invariant Elements(out) + rest == pool
      invariant Elements(out) !! rest
      invariant |out| + |rest| == |pool|
      decreases |rest|
    {
      var x :| x in rest;
      assert x !in Elements(out);
      out := out + [x];
      rest := rest - {x};
    }
  }

  /** `randomize_lines`: the distinct lines, in an order chosen by the shuffle. */
  method RandomizeLines(lines: seq<string>) returns (out: seq<string>)
    ensures Distinct(out)
    ensures Elements(out) == Elements(lines)
    ensures |out| == |Elements(lines)|
  {
    out := Shuffle(Elements(lines));
  }

  /** Shuffling and then sorting gives what sorting alone gives. */
  lemma SortAfterShuffle(lines: seq<string>, shuffled: seq<string>)
    requires Elements(shuffled) == Elements(lines)
    ensures SortLines(shuffled) == SortLines(lines)
  {
    SortLinesOfSameElements(shuffled, lines);
  }

  /** The lines `random_delete_lines` draws from: distinct and not white space only. */
  function Pool(lines: seq<string>): (p: set<string>)
    ensures forall x :: x in p <==> x in lines && !IsSpace(x)
  {
    set x | x in lines && !IsSpace(x)
  }

  /**
   How many lines `random_delete_lines` writes for a pool of `n` lines: all
   but a tenth (rounded down) when the pool is smaller than `retain`,
   otherwise `retain`; `random.choices` with a negative count returns
   nothing, so a negative `retain` writes no line.
   */
  function RetainCount(n: nat, retain: int): (k: nat)
    ensures k <= n
    ensures n < retain ==> 10 * (n - k) <= n < 10 * (n - k + 1)
    ensures n >= retain ==> k == if retain < 0 then 0 else retain
    ensures k > 0 ==> n > 0
  {
    if n < retain then n - n / 10
    else if retain < 0 then 0
    else retain
  }

  /**
   `random_delete_lines`: the pool is shuffled, then `random.choices` draws
   the lines to write, with replacement, each by an index below the pool's
   size. The draw never meets an empty pool.
   */
  method RandomDeleteLines(lines: seq<string>, retain: int) returns (out: seq<string>)
    ensures |out| == RetainCount(|Pool(lines)|, retain)
    ensures forall i :: 0 <= i < |out| ==> out[i] in lines && !IsSpace(out[i])
    ensures Elements(out) <= Pool(lines)
  {
    var shuffled := Shuffle(Pool(lines));
    var n := |shuffled|;
    var k := RetainCount(n, retain);
    out := [];
    while |out| < k
      invariant |out| <= k
      invariant forall i :: 0 <= i < |out| ==> out[i] in Pool(lines)
    {
      var j :| 0 <= j < n;
      assert shuffled[j] in Elements(shuffled);
      out := out + [shuffled[j]];
    }
  }
}
