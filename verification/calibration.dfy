/** Day 1: the calibration value of a line of text is the two-digit number
    made of its first and last digit. Part 2 first rewrites spelled-out
    digits ("one" .. "nine") into digit characters, using the overlapping
    finder so that words sharing letters ("eightwo") are all seen. */
module Calibration {
  import opened Wrappers
  import opened Text
  import Search
  import opened Checked

  /** `ENG_CHAR_MAP`: each spelled-out digit and its digit character, in the
      order in which they are scanned. */
  const EngCharMap: seq<(string, char)> := [
    ("one", '1'),
    ("two", '2'),
    ("three", '3'),
    ("four", '4'),
    ("five", '5'),
    ("six", '6'),
    ("seven", '7'),
    ("eight", '8'),
    ("nine", '9')
  ]

  /** The facts about the table the proofs use: mapping `k` stands for the
      digit `k + 1`, and every word has three or more letters and starts
      with a lower-case one. */
  lemma MapShape()
    ensures |EngCharMap| == 9
    ensures forall k :: 0 <= k < 9 ==> EngCharMap[k].1 == DigitChar(k + 1)
    ensures forall k :: 0 <= k < 9 ==> |EngCharMap[k].0| >= 3 && 'a' <= EngCharMap[k].0[0] <= 'z'
  {
  }

  /** The word of mapping `k` begins with one of `WordHeads`. */
  lemma WordHead(k: nat)
    requires k < 9
    ensures EngCharMap[k].0[..2] in WordHeads
  {
    var w := EngCharMap[k].0;
    if k == 0 { assert w[..2] == "on"; }
    else if k == 1 { assert w[..2] == "tw"; }
    else if k == 2 { assert w[..2] == "th"; }
    else if k == 3 { assert w[..2] == "fo"; }
    else if k == 4 { assert w[..2] == "fi"; }
    else if k == 5 { assert w[..2] == "si"; }
    else if k == 6 { assert w[..2] == "se"; }
    else if k == 7 { assert w[..2] == "ei"; }
    else { assert w[..2] == "ni"; }
  }

  /** The first two letters of the words of the table. */
  const WordHeads: set<string> := {"on", "tw", "th", "fo", "fi", "si", "se", "ei", "ni"}

  /** `WordHeads` holds exactly the first two letters of the table's words. */
  lemma WordHeadsExact()
    ensures forall h :: h in WordHeads <==> exists k :: 0 <= k < 9 && EngCharMap[k].0[..2] == h
  {
    forall k | 0 <= k < 9
      ensures EngCharMap[k].0[..2] in WordHeads
    {
      WordHead(k);
    }
    forall h | h in WordHeads
      ensures exists k :: 0 <= k < 9 && EngCharMap[k].0[..2] == h
    {
      var k: nat :=
        if h == "on" then 0 else if h == "tw" then 1 else if h == "th" then 2
        else if h == "fo" then 3 else if h == "fi" then 4 else if h == "si" then 5
        else if h == "se" then 6 else if h == "ei" then 7 else 8;
      WordHead(k);
      assert EngCharMap[k].0[..2] == h;
    }
  }

  /** No two words share their first two letters, so two different words
      never start at the same offset. */
  lemma WordPrefixesDistinct(k1: nat, k2: nat)
    requires k1 < 9 && k2 < 9
    requires EngCharMap[k1].0[0] == EngCharMap[k2].0[0] && EngCharMap[k1].0[1] == EngCharMap[k2].0[1]
    ensures k1 == k2
  {
  }

  /** Mapping `k` matches at offset `i` of `line`: its word or its digit starts there. */
  predicate MatchesMapping(line: string, k: nat, i: nat)
    requires k < |EngCharMap|
  {
    OccursAt(line, EngCharMap[k].0, i) || OccursAt(line, [EngCharMap[k].1], i)
  }

  /** No mapping after `k` (and before `n`) matches at offset `i`. */
  predicate NoLaterMatch(line: string, k: nat, n: nat, i: nat)
    requires n <= |EngCharMap|
  {
    forall k' :: k < k' < n ==> !MatchesMapping(line, k', i)
  }

  /** One optional digit per offset of the line. */
  type Slots = seq<Option<char>>

  /** `digits[o] = Some(c)` for every offset `o` in turn. */
  function Mark(slots: Slots, offsets: seq<nat>, c: char): (r: Slots)
    requires forall k :: 0 <= k < |offsets| ==> offsets[k] < |slots|
    ensures |r| == |slots|
    ensures forall i :: 0 <= i < |slots| ==> r[i] == (if i in offsets then Some(c) else slots[i])
    decreases |offsets|
  {
    if |offsets| == 0 then slots
    else Mark(slots[offsets[0] := Some(c)], offsets[1..], c)
  }

  /** One turn of the loop over the table: record the digit of mapping `k`
      wherever its word is found, then wherever its digit is found. A slot
      changes exactly where the mapping matches. */
  function ScanMapping(line: string, slots: Slots, k: nat): (r: Slots)
    requires k < |EngCharMap| && |slots| == |line|
    ensures |r| == |line|
    ensures forall i :: 0 <= i < |line| ==>
      r[i] == (if MatchesMapping(line, k, i) then Some(EngCharMap[k].1) else slots[i])
  {
    MapShape();
    var (word, c) := EngCharMap[k];
    var words := Search.FindAll(line, word);
    var literals := Search.FindAll(line, [c]);
    Mark(Mark(slots, words, c), literals, c)
  }

  /** Reference definition of "last writer wins": the digit of the last of
      the first `n` mappings of the table that matches at offset `i`, if any. */
  function LastWriter(line: string, n: nat, i: nat): Option<char>
    requires n <= |EngCharMap|
  {
    if n == 0 then None
    else if MatchesMapping(line, n - 1, i) then Some(EngCharMap[n - 1].1)
    else LastWriter(line, n - 1, i)
  }

  /** The slots after the first `n` mappings of the table have been scanned
      over the whole line: each holds what the last writer wrote there. */
  function FillSlots(line: string, n: nat): (r: Slots)
    requires n <= |EngCharMap|
    ensures |r| == |line|
    ensures forall i :: 0 <= i < |line| ==> r[i] == LastWriter(line, n, i)
  {
    if n == 0 then seq(|line|, _ => None)
    else ScanMapping(line, FillSlots(line, n - 1), n - 1)
  }

  /** "Last writer wins" spelled out: the slot stays empty exactly when none
      of the first `n` mappings matches, and otherwise holds the digit of the
      last one that does. */
  lemma {:induction false} LastWriterWins(line: string, n: nat, i: nat)
    requires n <= |EngCharMap|
    ensures LastWriter(line, n, i).None? <==> forall k :: 0 <= k < n ==> !MatchesMapping(line, k, i)
    ensures forall k :: 0 <= k < n && MatchesMapping(line, k, i) && NoLaterMatch(line, k, n, i) ==>
      LastWriter(line, n, i) == Some(EngCharMap[k].1)
    decreases n
  {
    if n > 0 {
      LastWriterWins(line, n - 1, i);
      forall k | 0 <= k < n && MatchesMapping(line, k, i) && NoLaterMatch(line, k, n, i)
        ensures LastWriter(line, n, i) == Some(EngCharMap[k].1)
      {
        if k < n - 1 {
          assert !MatchesMapping(line, n - 1, i);
          assert NoLaterMatch(line, k, n - 1, i);
        }
      }
    }
  }

  /** Every digit written is one of '1' .. '9'. */
  lemma {:induction false} LastWriterDigit(line: string, n: nat, i: nat)
    requires n <= |EngCharMap|
    ensures LastWriter(line, n, i).Some? ==> '1' <= LastWriter(line, n, i).value <= '9'
    decreases n
  {
    MapShape();
    if n > 0 {
      LastWriterDigit(line, n - 1, i);
    }
  }

  lemma LastWriterDigits(line: string)
    ensures forall i :: 0 <= i < |line| && LastWriter(line, |EngCharMap|, i).Some? ==>
      '1' <= LastWriter(line, |EngCharMap|, i).value <= '9'
  {
    forall i | 0 <= i < |line| {
      LastWriterDigit(line, |EngCharMap|, i);
    }
  }

  /** `filter_map(|c| c)`: the digits held by the filled slots, in offset order. */
  function Collapse(slots: Slots): (r: string)
    ensures |r| <= |slots|
    ensures forall k :: 0 <= k < |r| ==> Some(r[k]) in slots
    ensures forall c :: c in r <==> Some(c) in slots
  {
    if |slots| == 0 then []
    else (if slots[0].Some? then [slots[0].value] else []) + Collapse(slots[1..])
  }

  /** One slot collapses to its digit, if it holds one. */
  lemma CollapseOne(x: Option<char>)
    ensures Collapse([x]) == (if x.Some? then [x.value] else [])
  {
    assert [x][1..] == [];
  }

  /** Collapsing keeps order and multiplicity: it distributes over
      concatenation, so with `CollapseOne` it is fixed slot by slot. */
  lemma {:induction false} CollapseAppend(a: Slots, b: Slots)
    ensures Collapse(a + b) == Collapse(a) + Collapse(b)
    decreases |a|
  {
    if |a| == 0 {
      assert a + b == b;
    } else {
      var head := if a[0].Some? then [a[0].value] else [];
      assert (a + b)[0] == a[0] && (a + b)[1..] == a[1..] + b;
      assert Collapse(a + b) == head + Collapse(a[1..] + b);
      CollapseAppend(a[1..], b);
      ConcatAssoc(head, Collapse(a[1..]), Collapse(b));
    }
  }

  /** `eng_to_char`: the digits named by the words and digit characters of the
      line, in the order of the offsets at which they start. Only '1' .. '9'
      come out: a '0' in the line is not in the table and is dropped. */
  function EngToChar(line: string): (r: string)
    ensures r == DigitsFrom(line, 0)
    ensures |r| <= |line|
    ensures forall k :: 0 <= k < |r| ==> '1' <= r[k] <= '9'
  {
    LastWriterDigits(line);
    var slots := FillSlots(line, |EngCharMap|);
    assert |EngCharMap| == 9;
    CollapseSlots(line, 0);
    assert slots[0..] == slots;
    Collapse(slots)
  }

  /** Reference definition of the rewritten line: offset by offset from
      `i`, the digit of the last mapping of the table that matches there,
      if any. */
  function DigitsFrom(line: string, i: nat): string
    decreases |line| - i
  {
    if i >= |line| then []
    else (if LastWriter(line, 9, i).Some? then [LastWriter(line, 9, i).value] else []) + DigitsFrom(line, i + 1)
  }

  /** Collapsing the filled slots from offset `i` on gives the reference digits from `i`. */
  lemma {:induction false} CollapseSlots(line: string, i: nat)
    requires i <= |line|
    ensures Collapse(FillSlots(line, 9)[i..]) == DigitsFrom(line, i)
    decreases |line| - i
  {
    var r := FillSlots(line, 9);
    if i < |line| {
      CollapseFrom(r, i);
      CollapseSlots(line, i + 1);
    } else {
      assert r[i..] == [];
    }
  }

  /** At most one mapping of the table matches at any offset. */
  lemma {:induction false} MatchUnique(line: string, i: nat, k1: nat, k2: nat)
    requires k1 < 9 && k2 < 9
    requires MatchesMapping(line, k1, i) && MatchesMapping(line, k2, i)
    ensures k1 == k2
  {
    MapShape();
    var (w1, c1) := EngCharMap[k1];
    var (w2, c2) := EngCharMap[k2];
    OccursChar(line, c1, i);
    OccursChar(line, c2, i);
    OccursPrefix(line, w1, i, 2);
    OccursPrefix(line, w2, i, 2);
    if OccursAt(line, w1, i) && OccursAt(line, w2, i) {
      WordPrefixesDistinct(k1, k2);
    }
  }

  /** A one-character pattern occurs where that character stands. */
  lemma OccursChar(line: string, c: char, i: nat)
    ensures OccursAt(line, [c], i) <==> i < |line| && line[i] == c
  {
    if i < |line| && line[i] == c {
      assert line[i..i + 1] == [c];
    }
  }

  /** A mapping that matches is the only one matching there, so no later one does. */
  lemma OnlyMatch(line: string, i: nat, k: nat)
    requires k < 9 && MatchesMapping(line, k, i)
    ensures NoLaterMatch(line, k, 9, i)
  {
    forall k' | k < k' < 9
      ensures !MatchesMapping(line, k', i)
    {
      if MatchesMapping(line, k', i) {
        MatchUnique(line, i, k, k');
      }
    }
  }

  /** Since matches never collide, the scan order does not matter in the
      end: the slot at offset `i` holds digit `k + 1` exactly when mapping
      `k` matches at `i`. */
  lemma SlotExact(line: string, i: nat, k: nat)
    requires i < |line| && k < 9
    ensures FillSlots(line, 9)[i] == Some(EngCharMap[k].1) <==> MatchesMapping(line, k, i)
  {
    WriterExact(line, i, k);
  }

  /** The last writer at `i` writes the digit of mapping `k` exactly when
      mapping `k` matches there. */
  lemma WriterExact(line: string, i: nat, k: nat)
    requires k < 9
    ensures LastWriter(line, 9, i) == Some(EngCharMap[k].1) <==> MatchesMapping(line, k, i)
  {
    LastWriterWins(line, 9, i);
    if MatchesMapping(line, k, i) {
      OnlyMatch(line, i, k);
    } else if LastWriter(line, 9, i) == Some(EngCharMap[k].1) {
      var m :| 0 <= m < 9 && MatchesMapping(line, m, i);
      OnlyMatch(line, i, m);
      DigitsDistinct(m, k);
    }
  }

  /** Different mappings stand for different digits. */
  lemma DigitsDistinct(m: nat, k: nat)
    requires m < 9 && k < 9 && EngCharMap[m].1 == EngCharMap[k].1
    ensures m == k
  {
    MapShape();
    assert DigitValue(DigitChar(m + 1)) == DigitValue(DigitChar(k + 1));
  }

  /** A slot stays empty where no mapping matches. */
  lemma SlotEmpty(line: string, i: nat)
    requires i < |line|
    requires forall k :: 0 <= k < 9 ==> !MatchesMapping(line, k, i)
    ensures FillSlots(line, 9)[i] == None
  {
    LastWriterWins(line, 9, i);
  }

  /** Nothing matches at an offset holding a non-digit that, together with
      the next character, does not begin any word of the table. */
  lemma NoMappingAt(line: string, i: nat)
    requires i < |line| && !IsAsciiDigit(line[i])
    requires i + 1 < |line| ==> line[i..i + 2] !in WordHeads
    ensures forall k :: 0 <= k < 9 ==> !MatchesMapping(line, k, i)
  {
    MapShape();
    forall k | 0 <= k < 9
      ensures !MatchesMapping(line, k, i)
    {
      var (w, c) := EngCharMap[k];
      OccursChar(line, c, i);
      WordHead(k);
      OccursPrefix(line, w, i, 2);
    }
  }

  /** The rewriting example: "two3four5" becomes "2345". */
  lemma EngToCharExample(line: string)
    requires line == "two3four5"
    ensures EngToChar(line) == "2345"
  {
    ExampleMatches(line);
    ExampleSlots(line);
    ExampleWriters(line);
    ExampleDigits(line);
  }

  /** Where the mappings match in the example line. */
  predicate ExampleMatchFacts(line: string) {
    && |line| == 9
    && MatchesMapping(line, 1, 0) && MatchesMapping(line, 2, 3)
    && MatchesMapping(line, 3, 4) && MatchesMapping(line, 4, 8)
    && (forall k :: 0 <= k < 9 ==> !MatchesMapping(line, k, 1) && !MatchesMapping(line, k, 2))
    && (forall k :: 0 <= k < 9 ==> !MatchesMapping(line, k, 5) && !MatchesMapping(line, k, 6))
    && (forall k :: 0 <= k < 9 ==> !MatchesMapping(line, k, 7))
  }

  lemma ExampleMatches(line: string)
    requires line == "two3four5"
    ensures ExampleMatchFacts(line)
  {
    ExampleHits(line);
    ExampleMisses(line);
  }

  lemma ExampleHits(line: string)
    requires line == "two3four5"
    ensures MatchesMapping(line, 1, 0) && MatchesMapping(line, 2, 3)
    ensures MatchesMapping(line, 3, 4) && MatchesMapping(line, 4, 8)
  {
    assert line[0..3] == "two";
    OccursChar(line, '3', 3);
    assert line[4..8] == "four";
    OccursChar(line, '5', 8);
  }

  lemma ExampleMisses(line: string)
    requires line == "two3four5"
    ensures forall k :: 0 <= k < 9 ==> !MatchesMapping(line, k, 1) && !MatchesMapping(line, k, 2)
    ensures forall k :: 0 <= k < 9 ==> !MatchesMapping(line, k, 5) && !MatchesMapping(line, k, 6)
    ensures forall k :: 0 <= k < 9 ==> !MatchesMapping(line, k, 7)
  {
    assert line[1..3] == "wo" by { assert line[1] == 'w' && line[2] == 'o'; }
    NoMappingAt(line, 1);
    assert line[2..4] == "o3" by { assert line[2] == 'o' && line[3] == '3'; }
    NoMappingAt(line, 2);
    assert line[5..7] == "ou" by { assert line[5] == 'o' && line[6] == 'u'; }
    NoMappingAt(line, 5);
    assert line[6..8] == "ur" by { assert line[6] == 'u' && line[7] == 'r'; }
    NoMappingAt(line, 6);
    assert line[7..9] == "r5" by { assert line[7] == 'r' && line[8] == '5'; }
    NoMappingAt(line, 7);
  }

  /** The slots of the example line: digits at 0, 3, 4 and 8, nothing elsewhere. */
  predicate ExampleSlotFacts(r: Slots) {
    && |r| == 9
    && r[0] == Some('2') && r[3] == Some('3') && r[4] == Some('4') && r[8] == Some('5')
    && r[1] == None && r[2] == None && r[5] == None && r[6] == None && r[7] == None
  }

  lemma ExampleSlots(line: string)
    requires ExampleMatchFacts(line)
    ensures ExampleSlotFacts(FillSlots(line, 9))
  {
    ExampleFilledSlots(line);
    ExampleEmptySlots(line);
  }

  lemma ExampleFilledSlots(line: string)
    requires ExampleMatchFacts(line)
    ensures var r := FillSlots(line, 9);
      r[0] == Some('2') && r[3] == Some('3') && r[4] == Some('4') && r[8] == Some('5')
  {
    SlotOf(line, 0, 1, '2');
    SlotOf(line, 3, 2, '3');
    SlotOf(line, 4, 3, '4');
    SlotOf(line, 8, 4, '5');
  }

  /** A mapping matching at `i` fills slot `i` with its digit. */
  lemma SlotOf(line: string, i: nat, k: nat, d: char)
    requires i < |line| && k < 9 && MatchesMapping(line, k, i) && EngCharMap[k].1 == d
    ensures FillSlots(line, 9)[i] == Some(d)
  {
    SlotExact(line, i, k);
  }

  lemma ExampleEmptySlots(line: string)
    requires ExampleMatchFacts(line)
    ensures var r := FillSlots(line, 9);
      r[1] == None && r[2] == None && r[5] == None && r[6] == None && r[7] == None
  {
    SlotEmpty(line, 1);
    SlotEmpty(line, 2);
    SlotEmpty(line, 5);
    SlotEmpty(line, 6);
    SlotEmpty(line, 7);
  }

  /** The last writers of the example line: digits at 0, 3, 4 and 8, none elsewhere. */
  predicate ExampleWriterFacts(line: string) {
    && |line| == 9
    && LastWriter(line, 9, 0) == Some('2') && LastWriter(line, 9, 3) == Some('3')
    && LastWriter(line, 9, 4) == Some('4') && LastWriter(line, 9, 8) == Some('5')
    && LastWriter(line, 9, 1).None? && LastWriter(line, 9, 2).None? && LastWriter(line, 9, 5).None?
    && LastWriter(line, 9, 6).None? && LastWriter(line, 9, 7).None?
  }

  lemma ExampleWriters(line: string)
    requires ExampleSlotFacts(FillSlots(line, 9))
    ensures ExampleWriterFacts(line)
  {
  }

  /** The reference digits of the example line, taken from the back. */
  lemma ExampleDigits(line: string)
    requires ExampleWriterFacts(line)
    ensures DigitsFrom(line, 0) == "2345"
  {
    assert DigitsFrom(line, 9) == [];
    assert DigitsFrom(line, 8) == "5";
    assert DigitsFrom(line, 7) == "5";
    assert DigitsFrom(line, 6) == "5";
    assert DigitsFrom(line, 5) == "5";
    assert DigitsFrom(line, 4) == "45";
    assert DigitsFrom(line, 3) == "345";
    assert DigitsFrom(line, 2) == "345";
    assert DigitsFrom(line, 1) == "345";
  }

  /** Collapsing the slots from `k` on: slot `k`'s digit, if any, then the rest. */
  lemma CollapseFrom(r: Slots, k: nat)
    requires k < |r|
    ensures Collapse(r[k..]) == (if r[k].Some? then [r[k].value] else []) + Collapse(r[k + 1..])
  {
    assert r[k..][0] == r[k] && r[k..][1..] == r[k + 1..];
  }

  /** Collapsing slots that are all filled gives back their contents. */
  lemma {:induction false} CollapseFull(slots: Slots, s: string)
    requires |slots| == |s|
    requires forall i :: 0 <= i < |s| ==> slots[i] == Some(s[i])
    ensures Collapse(slots) == s
    decreases |s|
  {
    if |s| > 0 {
      CollapseFull(slots[1..], s[1..]);
      assert s == [s[0]] + s[1..];
    }
  }

  /** A line made only of the digits '1' .. '9' comes out unchanged. */
  lemma {:induction false} EngToCharDigitsOnly(line: string)
    requires forall i :: 0 <= i < |line| ==> '1' <= line[i] <= '9'
    ensures EngToChar(line) == line
  {
    MapShape();
    var r := FillSlots(line, 9);
    forall i | 0 <= i < |line|
      ensures r[i] == Some(line[i])
    {
      DigitSlot(line, i);
    }
    CollapseFull(r, line);
  }

  /** At an offset holding '1' .. '9' the slot holds that digit. */
  lemma DigitSlot(line: string, i: nat)
    requires i < |line| && '1' <= line[i] <= '9'
    ensures FillSlots(line, 9)[i] == Some(line[i])
  {
    MapShape();
    var k: nat := DigitValue(line[i]) - 1;
    assert EngCharMap[k].1 == line[i];
    OccursChar(line, EngCharMap[k].1, i);
    SlotExact(line, i, k);
  }

  /** '0' is not in the table and starts no word, so an offset holding '0'
      never gets a digit. */
  lemma ZeroNoSlot(line: string, i: nat)
    requires i < |line| && line[i] == '0'
    ensures FillSlots(line, 9)[i] == None
  {
    forall k | 0 <= k < 9
      ensures !MatchesMapping(line, k, i)
    {
      ZeroNoMatch(line, i, k);
    }
    SlotEmpty(line, i);
  }

  /** No mapping matches at an offset holding '0'. */
  lemma ZeroNoMatch(line: string, i: nat, k: nat)
    requires i < |line| && line[i] == '0' && k < 9
    ensures !MatchesMapping(line, k, i)
  {
    MapShape();
    OccursChar(line, EngCharMap[k].1, i);
    OccursPrefix(line, EngCharMap[k].0, i, 1);
  }

  /** '0' is not in the table, so a line holding only '0' comes out empty. */
  lemma ZeroDropped(line: string)
    requires line == "0"
    ensures EngToChar(line) == ""
  {
    MapShape();
    forall k | 0 <= k < 9
      ensures !MatchesMapping(line, k, 0)
    {
      OccursChar(line, EngCharMap[k].1, 0);
    }
    SlotEmpty(line, 0);
    var r := FillSlots(line, 9);
    assert r == [None];
    assert Collapse(r) == Collapse(r[1..]);
  }

  /** Why `get_line_calibration` can fail. */
  datatype CalibrationError = NoDigit | ReadFailed | Overflow

  /** The ASCII digits of a line, in order (`filter(is_ascii_digit)`). */
  function AsciiDigits(s: string): (r: string)
    ensures forall k :: 0 <= k < |r| ==> IsAsciiDigit(r[k])
    ensures |r| == 0 <==> forall k :: 0 <= k < |s| ==> !IsAsciiDigit(s[k])
  {
    if |s| == 0 then []
    else (if IsAsciiDigit(s[0]) then [s[0]] else []) + AsciiDigits(s[1..])
  }

  /** `i` is the offset of the first digit of `line` and `j` that of the last. */
  predicate FirstAndLastDigit(line: string, i: nat, j: nat) {
    && i <= j < |line|
    && IsAsciiDigit(line[i]) && IsAsciiDigit(line[j])
    && (forall k :: 0 <= k < i ==> !IsAsciiDigit(line[k]))
    && (forall k :: j < k < |line| ==> !IsAsciiDigit(line[k]))
  }

  /** The first extracted digit is the line's first digit. */
  lemma {:induction false} FirstDigitAt(s: string) returns (i: nat)
    requires |AsciiDigits(s)| > 0
    ensures i < |s| && s[i] == AsciiDigits(s)[0]
    ensures forall k :: 0 <= k < i ==> !IsAsciiDigit(s[k])
    decreases |s|
  {
    if IsAsciiDigit(s[0]) {
      i := 0;
    } else {
      var i' := FirstDigitAt(s[1..]);
      i := i' + 1;
    }
  }

  /** The last extracted digit is the line's last digit. */
  lemma {:induction false} LastDigitAt(s: string) returns (j: nat)
    requires |AsciiDigits(s)| > 0
    ensures j < |s| && s[j] == AsciiDigits(s)[|AsciiDigits(s)| - 1]
    ensures forall k :: j < k < |s| ==> !IsAsciiDigit(s[k])
    decreases |s|
  {
    if |AsciiDigits(s[1..])| > 0 {
      var j' := LastDigitAt(s[1..]);
      j := j' + 1;
    } else {
      j := 0;
    }
  }

  lemma DigitBounds(s: string)
    requires |AsciiDigits(s)| > 0
    ensures exists i: nat, j: nat :: (FirstAndLastDigit(s, i, j)
      && AsciiDigits(s)[0] == s[i] && AsciiDigits(s)[|AsciiDigits(s)| - 1] == s[j])
  {
    var i := FirstDigitAt(s);
    var j := LastDigitAt(s);
    assert FirstAndLastDigit(s, i, j);
  }

  /** `get_line_calibration`: ten times the first digit of the line plus its
      last digit (a lone digit counts as both); the line must hold a digit. */
  function LineCalibration(line: string): (r: Result<nat, CalibrationError>)
    ensures r.Err? <==> forall k :: 0 <= k < |line| ==> !IsAsciiDigit(line[k])
    ensures r.Err? ==> r.error == NoDigit
    ensures r.Ok? ==> r.value <= 99
    ensures r.Ok? ==> exists i: nat, j: nat :: (FirstAndLastDigit(line, i, j)
      && r.value == 10 * DigitValue(line[i]) + DigitValue(line[j]))
  {
    var digits := AsciiDigits(line);
    if |digits| == 0 then Err(NoDigit)
    else
      DigitBounds(line);
      Ok(10 * DigitValue(digits[0]) + DigitValue(digits[|digits| - 1]))
  }

  /** The part 1 sample: four lines whose values 12, 38, 15 and 77 total 142. */
  lemma TotalCalibrationSample()
    ensures TotalCalibration([Ok("1abc2"), Ok("pqr3stu8vwx"), Ok("a1b2c3d4e5f"), Ok("treb7uchet")]) == Ok(142)
  {
    var lines: seq<Result<string, IoError>> := [Ok("1abc2"), Ok("pqr3stu8vwx"), Ok("a1b2c3d4e5f"), Ok("treb7uchet")];
    SampleLine1("1abc2");
    SampleLine2("pqr3stu8vwx");
    SampleLine3("a1b2c3d4e5f");
    SampleLine4("treb7uchet");
    SampleResults(lines, "1abc2", "pqr3stu8vwx", "a1b2c3d4e5f", "treb7uchet");
    SampleSum(LineResults(lines, false));
  }

  lemma SampleResults(lines: seq<Result<string, IoError>>, l1: string, l2: string, l3: string, l4: string)
    requires lines == [Ok(l1), Ok(l2), Ok(l3), Ok(l4)]
    requires LineCalibration(l1) == Ok(12) && LineCalibration(l2) == Ok(38)
    requires LineCalibration(l3) == Ok(15) && LineCalibration(l4) == Ok(77)
    ensures LineResults(lines, false) == [Ok(12), Ok(38), Ok(15), Ok(77)]
  {
  }

  lemma SampleSum(vs: seq<Result<nat, CalibrationError>>)
    requires vs == [Ok(12), Ok(38), Ok(15), Ok(77)]
    ensures AllOk(vs) && PlainSum(vs) == 142
  {
    var v1, v2, v3, v4 := vs[1..], vs[2..], vs[3..], vs[4..];
    assert |v4| == 0 && v3[1..] == v4 && v2[1..] == v3 && v1[1..] == v2;
    assert PlainSum(v3) == 77;
    assert PlainSum(v2) == 92;
    assert PlainSum(v1) == 130;
  }

  /** The first and last digit of a line fix its value. */
  lemma CalibrationAt(line: string, i: nat, j: nat)
    requires FirstAndLastDigit(line, i, j)
    ensures LineCalibration(line) == Ok(10 * DigitValue(line[i]) + DigitValue(line[j]))
  {
    assert LineCalibration(line).Ok?;
    var a: nat, b: nat :| FirstAndLastDigit(line, a, b)
      && LineCalibration(line).value == 10 * DigitValue(line[a]) + DigitValue(line[b]);
    assert a == i by {
      assert !(a < i) && !(i < a);
    }
    assert b == j by {
      assert !(b < j) && !(j < b);
    }
  }

  lemma SampleLine1(line: string)
    requires line == "1abc2"
    ensures LineCalibration(line) == Ok(12)
  {
    assert line[0] == '1' && line[4] == '2';
    CalibrationAt(line, 0, 4);
  }

  lemma SampleLine2(line: string)
    requires line == "pqr3stu8vwx"
    ensures LineCalibration(line) == Ok(38)
  {
    assert line[0] == 'p' && line[1] == 'q' && line[2] == 'r' && line[3] == '3';
    assert line[7] == '8' && line[8] == 'v' && line[9] == 'w' && line[10] == 'x';
    CalibrationAt(line, 3, 7);
  }

  lemma SampleLine3(line: string)
    requires line == "a1b2c3d4e5f"
    ensures LineCalibration(line) == Ok(15)
  {
    assert line[0] == 'a' && line[1] == '1' && line[9] == '5' && line[10] == 'f';
    CalibrationAt(line, 1, 9);
  }

  lemma SampleLine4(line: string)
    requires line == "treb7uchet"
    ensures LineCalibration(line) == Ok(77)
  {
    assert line[0] == 't' && line[1] == 'r' && line[2] == 'e' && line[3] == 'b' && line[4] == '7';
    assert line[5] == 'u' && line[6] == 'c' && line[7] == 'h' && line[8] == 'e' && line[9] == 't';
    CalibrationAt(line, 4, 4);
  }

  /** The value of one line, with or without rewriting digit words first. */
  function LineValue(line: string, words: bool): Result<nat, CalibrationError> {
    LineCalibration(if words then EngToChar(line) else line)
  }

  /** After rewriting digit words, a line's value lies between 11 and 99,
      because the rewritten line has no '0'. */
  lemma WordsValueRange(line: string)
    ensures LineValue(line, true).Ok? ==> 11 <= LineValue(line, true).value <= 99
  {
    if !LineValue(line, true).Ok? { return; }
    var s := EngToChar(line);
    var i: nat, j: nat :| FirstAndLastDigit(s, i, j)
      && LineValue(line, true).value == 10 * DigitValue(s[i]) + DigitValue(s[j]);
    assert '1' <= s[i] && '1' <= s[j];
  }

  /** The value of one line as read from the input: an unreadable line is
      an error (`line.unwrap()`). */
  function LineResult(line: Result<string, IoError>, words: bool): Result<nat, CalibrationError> {
    match line
    case Err(_) => Err(ReadFailed)
    case Ok(l) => LineValue(l, words)
  }

  /** `input.map(...)`: the value of every line, in order. */
  function LineResults(lines: seq<Result<string, IoError>>, words: bool): (vs: seq<Result<nat, CalibrationError>>)
    ensures |vs| == |lines|
    ensures forall k :: 0 <= k < |lines| ==> vs[k] == LineResult(lines[k], words)
  {
    seq(|lines|, k requires 0 <= k < |lines| => LineResult(lines[k], words))
  }

  /** `get_total_calibration`: the sum of the line values; fails on the
      first unreadable line, line without a digit, or `u16` overflow. */
  function TotalCalibration(lines: seq<Result<string, IoError>>): (r: Result<nat, CalibrationError>)
    ensures r.Ok? <==> AllOk(LineResults(lines, false)) && PlainSum(LineResults(lines, false)) <= U16Max
    ensures r.Ok? ==> r.value == PlainSum(LineResults(lines, false))
  {
    CheckedSumIsPlainSum(LineResults(lines, false), U16Max, Overflow, 0);
    CheckedSum(LineResults(lines, false), U16Max, Overflow, 0)
  }

  /** `get_total_calibration_2`: the same sum, each line's digit words
      rewritten first. */
  function TotalCalibration2(lines: seq<Result<string, IoError>>): (r: Result<nat, CalibrationError>)
    ensures r.Ok? <==> AllOk(LineResults(lines, true)) && PlainSum(LineResults(lines, true)) <= U16Max
    ensures r.Ok? ==> r.value == PlainSum(LineResults(lines, true))
  {
    CheckedSumIsPlainSum(LineResults(lines, true), U16Max, Overflow, 0);
    CheckedSum(LineResults(lines, true), U16Max, Overflow, 0)
  }
}
