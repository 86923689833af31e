/** The overlapping substring finder of day 1 (`FindIter`): a cursor over a
    text that yields every offset at which a pattern starts, including
    occurrences that overlap an earlier one. */
module Search {
  import opened Wrappers
  import opened Text

  /** The iterator's state: the text searched, the pattern, and the offset
      from which the next search starts. */
  datatype FindIter = FindIter(slice: string, pattern: string, pointer: nat)

  /** A state `next` can be called on: the pattern is not empty (an empty
      pattern lets the cursor step past the end of the text) and the cursor
      lies inside the text or just after it. */
  predicate Valid(it: FindIter) {
    |it.pattern| > 0 && it.pointer <= |it.slice|
  }

  /** `FindIter::find_iter`: a fresh scan starting at offset 0. */
  function Start(slice: string, pattern: string): (it: FindIter)
    requires |pattern| > 0
    ensures it.slice == slice && it.pattern == pattern && it.pointer == 0
    ensures Valid(it)
  {
    FindIter(slice, pattern, 0)
  }

  /** `next`: the first occurrence at or after the cursor, and the iterator
      with its cursor one past that occurrence's start; `None` when the
      pattern does not occur at or after the cursor. */
  function Next(it: FindIter): (r: Option<(nat, FindIter)>)
    requires Valid(it)
    ensures r.None? <==> forall j: nat :: it.pointer <= j ==> !OccursAt(it.slice, it.pattern, j)
    ensures r.Some? ==> it.pointer <= r.value.0 && OccursAt(it.slice, it.pattern, r.value.0)
    ensures r.Some? ==> forall j: nat :: it.pointer <= j < r.value.0 ==> !OccursAt(it.slice, it.pattern, j)
    ensures r.Some? ==> r.value.1 == it.(pointer := r.value.0 + 1) && Valid(r.value.1)
  {
    OccursInSuffix(it.slice, it.pattern, it.pointer);
    match Find(it.slice[it.pointer..], it.pattern)
    case None => None
    case Some(idx) =>
      var matchIdx := it.pointer + idx;
      assert OccursAt(it.slice, it.pattern, matchIdx);
      Some((matchIdx, it.(pointer := matchIdx + 1)))
  }

  /** Everything the iterator still yields: `next` called until it returns
      `None`, as `collect` does. The offsets are strictly ascending, each is
      an occurrence at or after the cursor, and no such occurrence is missed. */
  function Remaining(it: FindIter): (r: seq<nat>)
    requires Valid(it)
    decreases |it.slice| - it.pointer
    ensures forall k :: 0 <= k < |r| ==> it.pointer <= r[k] && OccursAt(it.slice, it.pattern, r[k])
    ensures forall k, l :: 0 <= k < l < |r| ==> r[k] < r[l]
    ensures forall j: nat :: it.pointer <= j && OccursAt(it.slice, it.pattern, j) ==> j in r
  {
    match Next(it)
    case None => []
    case Some((m, rest)) =>
      var tail := Remaining(rest);
      PrependMatch(it.slice, it.pattern, it.pointer, m, tail);
      [m] + tail
  }

  /** The first occurrence at or after `from`, put before every later one in
      ascending order, gives every occurrence at or after `from` in ascending order. */
  lemma PrependMatch(s: string, p: string, from: nat, m: nat, tail: seq<nat>)
    requires from <= m && OccursAt(s, p, m)
    requires forall j: nat :: from <= j < m ==> !OccursAt(s, p, j)
    requires forall k :: 0 <= k < |tail| ==> m + 1 <= tail[k] && OccursAt(s, p, tail[k])
    requires forall k, l :: 0 <= k < l < |tail| ==> tail[k] < tail[l]
    requires forall j: nat :: m + 1 <= j && OccursAt(s, p, j) ==> j in tail
    ensures forall k :: 0 <= k < |[m] + tail| ==> from <= ([m] + tail)[k] && OccursAt(s, p, ([m] + tail)[k])
    ensures forall k, l :: 0 <= k < l < |[m] + tail| ==> ([m] + tail)[k] < ([m] + tail)[l]
    ensures forall j: nat :: from <= j && OccursAt(s, p, j) ==> j in [m] + tail
  {
    var r := [m] + tail;
    assert forall k :: 1 <= k < |r| ==> r[k] == tail[k - 1];
  }

  /** `FindIter::find_iter(slice, pattern).collect()`: every offset at which
      the pattern occurs, ascending, overlapping occurrences included. */
  function FindAll(slice: string, pattern: string): (r: seq<nat>)
    requires |pattern| > 0
    ensures forall j: nat :: j in r <==> OccursAt(slice, pattern, j)
    ensures r == MatchesFrom(slice, pattern, 0)
  {
    RemainingIsMatches(Start(slice, pattern));
    Remaining(Start(slice, pattern))
  }

  /** Reference definition: the offsets from `i` on at which `p` occurs,
      checked one offset at a time. */
  function MatchesFrom(s: string, p: string, i: nat): seq<nat>
    decreases |s| + 1 - i
  {
    if i > |s| then []
    else (if OccursAt(s, p, i) then [i] else []) + MatchesFrom(s, p, i + 1)
  }

  /** Offsets without an occurrence contribute nothing to the reference scan. */
  lemma {:induction false} MatchesSkip(s: string, p: string, i: nat, m: nat)
    requires i <= m
    requires forall j: nat :: i <= j < m ==> !OccursAt(s, p, j)
    ensures MatchesFrom(s, p, i) == MatchesFrom(s, p, m)
    decreases m - i
  {
    if i < m {
      if i <= |s| {
        MatchesSkip(s, p, i + 1, m);
      } else {
        MatchesPastEnd(s, p, m);
      }
    }
  }

  lemma MatchesPastEnd(s: string, p: string, i: nat)
    requires i > |s|
    ensures MatchesFrom(s, p, i) == []
  {
  }

  /** With no occurrence left, the reference scan finds nothing. */
  lemma {:induction false} MatchesNone(s: string, p: string, i: nat)
    requires forall j: nat :: i <= j ==> !OccursAt(s, p, j)
    ensures MatchesFrom(s, p, i) == []
    decreases |s| + 1 - i
  {
    if i <= |s| {
      MatchesNone(s, p, i + 1);
    }
  }

  /** The iterator yields exactly what the offset-by-offset reference scan finds. */
  lemma {:induction false} RemainingIsMatches(it: FindIter)
    requires Valid(it)
    ensures Remaining(it) == MatchesFrom(it.slice, it.pattern, it.pointer)
    decreases |it.slice| - it.pointer
  {
    if Next(it).None? {
      NoMatchStep(it);
    } else {
      RemainingIsMatches(Next(it).value.1);
      MatchStep(it);
    }
  }

  /** With no match left, the iterator and the reference scan both end. */
  lemma NoMatchStep(it: FindIter)
    requires Valid(it) && Next(it).None?
    ensures Remaining(it) == MatchesFrom(it.slice, it.pattern, it.pointer)
  {
    MatchesNone(it.slice, it.pattern, it.pointer);
  }

  /** One step of the correspondence: if the advanced iterator yields the
      reference scan from one past the next match, so does the iterator. */
  lemma MatchStep(it: FindIter)
    requires Valid(it) && Next(it).Some?
    requires Remaining(Next(it).value.1) == MatchesFrom(it.slice, it.pattern, Next(it).value.0 + 1)
    ensures Remaining(it) == MatchesFrom(it.slice, it.pattern, it.pointer)
  {
    var s, p, m := it.slice, it.pattern, Next(it).value.0;
    MatchesSkip(s, p, it.pointer, m);
    MatchesHere(s, p, m);
    RemainingCons(it);
  }

  /** An iterator with a next match yields it and then what the advanced iterator yields. */
  lemma RemainingCons(it: FindIter)
    requires Valid(it) && Next(it).Some?
    ensures Remaining(it) == [Next(it).value.0] + Remaining(Next(it).value.1)
  {
  }

  /** The reference scan at an occurrence starts with that occurrence. */
  lemma MatchesHere(s: string, p: string, m: nat)
    requires OccursAt(s, p, m)
    ensures MatchesFrom(s, p, m) == [m] + MatchesFrom(s, p, m + 1)
  {
  }

  /** The overlapping-search example: "aa" in "aaaXXaXXXaaXXXaa" is found at
      0, 1, 9 and 14; the match at 1 overlaps the one at 0. */
  lemma FindAllExample()
    ensures FindAll("aaaXXaXXXaaXXXaa", "aa") == [0, 1, 9, 14]
  {
    RemainingIsMatches(Start("aaaXXaXXXaaXXXaa", "aa"));
    MatchesExample("aaaXXaXXXaaXXXaa");
  }

  /** The reference scan on the example text, one offset at a time. */
  lemma MatchesExample(s: string)
    requires s == "aaaXXaXXXaaXXXaa"
    ensures MatchesFrom(s, "aa", 0) == [0, 1, 9, 14]
  {
    MatchesExampleTail(s);
    MatchesExampleMiddle(s);
    MatchesExampleHead(s);
  }

  /** The last offsets of the example, from 9 to the end. */
  lemma MatchesExampleTail(s: string)
    requires s == "aaaXXaXXXaaXXXaa"
    ensures MatchesFrom(s, "aa", 9) == [9, 14]
  {
    assert MatchesFrom(s, "aa", 16) == [] by { assert MatchesFrom(s, "aa", 17) == []; }
    assert MatchesFrom(s, "aa", 15) == [];
    assert MatchesFrom(s, "aa", 14) == [14] by { assert s[14] == 'a' && s[15] == 'a'; PairAt(s, "aa", 14); }
    assert MatchesFrom(s, "aa", 13) == [14] by { assert s[13] == 'X' && s[14] == 'a'; PairAt(s, "aa", 13); }
    assert MatchesFrom(s, "aa", 12) == [14] by { assert s[12] == 'X' && s[13] == 'X'; PairAt(s, "aa", 12); }
    assert MatchesFrom(s, "aa", 11) == [14] by { assert s[11] == 'X' && s[12] == 'X'; PairAt(s, "aa", 11); }
    assert MatchesFrom(s, "aa", 10) == [14] by { assert s[10] == 'a' && s[11] == 'X'; PairAt(s, "aa", 10); }
    assert MatchesFrom(s, "aa", 9) == [9, 14] by { assert s[9] == 'a' && s[10] == 'a'; PairAt(s, "aa", 9); }
  }

  /** Offsets 5 to 8 of the example, given the scan from offset 9. */
  lemma MatchesExampleMiddle(s: string)
    requires s == "aaaXXaXXXaaXXXaa"
    requires MatchesFrom(s, "aa", 9) == [9, 14]
    ensures MatchesFrom(s, "aa", 5) == [9, 14]
  {
    assert MatchesFrom(s, "aa", 8) == [9, 14] by { assert s[8] == 'X' && s[9] == 'a'; PairAt(s, "aa", 8); }
    assert MatchesFrom(s, "aa", 7) == [9, 14] by { assert s[7] == 'X' && s[8] == 'X'; PairAt(s, "aa", 7); }
    assert MatchesFrom(s, "aa", 6) == [9, 14] by { assert s[6] == 'X' && s[7] == 'X'; PairAt(s, "aa", 6); }
    assert MatchesFrom(s, "aa", 5) == [9, 14] by { assert s[5] == 'a' && s[6] == 'X'; PairAt(s, "aa", 5); }
  }

  /** The first offsets of the example, given the scan from offset 5. */
  lemma MatchesExampleHead(s: string)
    requires s == "aaaXXaXXXaaXXXaa"
    requires MatchesFrom(s, "aa", 5) == [9, 14]
    ensures MatchesFrom(s, "aa", 0) == [0, 1, 9, 14]
  {
    assert MatchesFrom(s, "aa", 4) == [9, 14] by { assert s[4] == 'X' && s[5] == 'a'; PairAt(s, "aa", 4); }
    assert MatchesFrom(s, "aa", 3) == [9, 14] by { assert s[3] == 'X' && s[4] == 'X'; PairAt(s, "aa", 3); }
    assert MatchesFrom(s, "aa", 2) == [9, 14] by { assert s[2] == 'a' && s[3] == 'X'; PairAt(s, "aa", 2); }
    assert MatchesFrom(s, "aa", 1) == [1, 9, 14] by { assert s[1] == 'a' && s[2] == 'a'; PairAt(s, "aa", 1); }
    assert MatchesFrom(s, "aa", 0) == [0, 1, 9, 14] by { assert s[0] == 'a' && s[1] == 'a'; PairAt(s, "aa", 0); }
  }

  /** A two-character pattern occurs where both of its characters do. */
  lemma PairAt(s: string, p: string, i: nat)
    requires |p| == 2 && i + 2 <= |s|
    ensures OccursAt(s, p, i) <==> s[i] == p[0] && s[i + 1] == p[1]
  {
    if s[i] == p[0] && s[i + 1] == p[1] {
      assert s[i..i + 2] == p;
    }
  }
}
