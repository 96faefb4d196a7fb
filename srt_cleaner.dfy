/**
 * The subtitle de-duplicator (script/srt_cleaner.py): it finds maximal runs
 * of consecutive entries whose normalised texts are equal, keeps the first
 * entry of each long enough run, drops the rest and renumbers what is left.
 *
 * Parsing the file is outside the model: an operation starts from the list
 * of entries the parser built, one fresh object per entry.
 */
module SrtCleaning {
  import opened Wrappers
  import opened Text

  // ---------------------------------------------------------------- entries

  /** A subtitle entry; only its number is reassigned after construction. */
  class SrtEntry {
    var index: nat
    const startTime: string
    const endTime: string
    const text: string

    constructor (index: nat, startTime: string, endTime: string, text: string)
      ensures this.index == index && this.startTime == startTime && this.endTime == endTime
      ensures this.text == Strip(text)
    {
      this.index := index;
      this.startTime := startTime;
      this.endTime := endTime;
      this.text := Strip(text);
    }
  }

  /** `str(entry)`: the number, the time range and the text, each on its own line. */
  function Render(e: SrtEntry): string
    reads e
  {
    Digits(e.index) + "\n" + e.startTime + " --> " + e.endTime + "\n" + e.text + "\n"
  }

  /** What write_srt_file writes: each rendered entry followed by a blank line. */
  function FileContent(entries: seq<SrtEntry>): string
    reads entries
  {
    if entries == [] then ""
    else FileContent(entries[..|entries| - 1]) + Render(entries[|entries| - 1]) + "\n"
  }

  /** `s.split(sep)` for a one-element separator. */
  function SplitOn<T(==)>(s: seq<T>, sep: T): (parts: seq<seq<T>>)
    ensures |parts| >= 1
  {
    if s == [] then [[]]
    else
      var rest := SplitOn(s[1..], sep);
      if s[0] == sep then [[]] + rest else [[s[0]] + rest[0]] + rest[1..]
  }

  /** `s.split("\n")`. */
  function SplitLines(s: string): seq<string>
  {
    SplitOn(s, '\n')
  }

  lemma {:induction false} SplitSingle<T>(s: seq<T>, sep: T)
    requires sep !in s
    ensures SplitOn(s, sep) == [s]
  {
    if s != [] {
      SplitSingle(s[1..], sep);
      assert [s[0]] + s[1..] == s;
    }
  }

  /** The head part of a split, extended in front: the rest of the parts follow unchanged. */
  lemma ConsFirst<T>(x: T, P: seq<seq<T>>, Q: seq<seq<T>>)
    requires |P| >= 1
    ensures var R := P + Q; |R| >= 1 && R[0] == P[0] && R[1..] == P[1..] + Q
  {
    var R := P + Q;
    assert R[1..] == P[1..] + Q;
  }

  lemma AppendAssoc<T>(A: seq<T>, B: seq<T>, C: seq<T>)
    ensures (A + B) + C == A + (B + C)
  {
  }

  /** Splitting at a separator splits the two sides apart. */
  lemma {:induction false} SplitAppend<T>(a: seq<T>, b: seq<T>, sep: T)
    ensures SplitOn(a + [sep] + b, sep) == SplitOn(a, sep) + SplitOn(b, sep)
  {
    var y := a + [sep] + b;
    if a == [] {
      assert y[1..] == b;
    } else {
      assert y[0] == a[0] && y[1..] == a[1..] + [sep] + b;
      SplitAppend(a[1..], b, sep);
      var A' := SplitOn(a[1..], sep);
      var B := SplitOn(b, sep);
      if a[0] == sep {
        AppendAssoc([[]], A', B);
      } else {
        ConsFirst(a[0], A', B);
        AppendAssoc([[a[0]] + A'[0]], A'[1..], B);
      }
    }
  }

  /** Splitting a joined list of lines that hold no newline gives the lines back. */
  lemma {:induction false} SplitJoin(lines: seq<string>)
    requires |lines| >= 1
    requires forall k :: 0 <= k < |lines| ==> '\n' !in lines[k]
    ensures SplitLines(Join(lines, "\n")) == lines
  {
    if |lines| == 1 {
      SplitSingle(lines[0], '\n');
    } else {
      SplitJoin(lines[1..]);
      SplitSingle(lines[0], '\n');
      SplitAppend(lines[0], Join(lines[1..], "\n"), '\n');
      assert lines == [lines[0]] + lines[1..];
    }
  }

  /** A rendered entry with single-line fields reads back as its four lines: number, range, text, blank. */
  lemma RenderReadsBack(e: SrtEntry)
    requires '\n' !in e.startTime && '\n' !in e.endTime && '\n' !in e.text
    ensures SplitLines(Render(e)) == [Digits(e.index), e.startTime + " --> " + e.endTime, e.text, ""]
    ensures AllDigits(SplitLines(Render(e))[0]) && ParseDigits(SplitLines(Render(e))[0]) == e.index
  {
    var digits := Digits(e.index);
    var range := e.startTime + " --> " + e.endTime;
    var lines := [digits, range, e.text, ""];
    DigitsValue(e.index);
    assert '\n' !in digits by {
      assert forall k :: 0 <= k < |digits| ==> IsDigit(digits[k]);
    }
    assert '\n' !in range;
    assert lines[1..] == [range, e.text, ""] && lines[2..] == [e.text, ""] && lines[3..] == [""];
    assert Join(lines[2..], "\n") == e.text + "\n" + "";
    assert Join(lines[1..], "\n") == range + "\n" + (e.text + "\n" + "");
    assert Join(lines, "\n") == digits + "\n" + (range + "\n" + (e.text + "\n" + ""));
    assert Render(e) == Join(lines, "\n");
    SplitJoin(lines);
  }

  // ---------------------------------------------------------------- normalize_text

  /** `re.sub(r'\s+', ' ', s)`: every run of whitespace becomes one space. */
  function Collapse(s: string): string
    decreases |s|
  {
    if s == [] then []
    else if IsSpace(s[0]) then
      var rest := LStrip(s);
      [' '] + Collapse(rest)
    else [s[0]] + Collapse(s[1..])
  }

  /** Every whitespace character is a plain space, and no two are adjacent. */
  predicate SingleSpaced(s: string)
  {
    s == [] ||
    ((IsSpace(s[0]) ==> s[0] == ' ' && (|s| > 1 ==> !IsSpace(s[1]))) && SingleSpaced(s[1..]))
  }

  /** Collapsing leaves single spaces only, and keeps whether the text starts or ends with whitespace. */
  lemma {:induction false} CollapseShape(s: string)
    ensures SingleSpaced(Collapse(s))
    ensures Collapse(s) == [] <==> s == []
    ensures Collapse(s) != [] ==>
      (IsSpace(Collapse(s)[0]) <==> IsSpace(s[0])) &&
      (IsSpace(Collapse(s)[|Collapse(s)| - 1]) <==> IsSpace(s[|s| - 1]))
    decreases |s|
  {
    if s != [] {
      var r := Collapse(s);
      if IsSpace(s[0]) {
        var rest := LStrip(s);
        CollapseShape(rest);
        assert r[1..] == Collapse(rest);
        if rest != [] {
          assert rest[|rest| - 1] == s[|s| - 1];
        }
      } else {
        CollapseShape(s[1..]);
        assert r[1..] == Collapse(s[1..]);
      }
    }
  }

  lemma {:induction false} LowerSpaced(s: string)
    requires SingleSpaced(s)
    ensures SingleSpaced(Lower(s))
  {
    if s != [] {
      assert Lower(s)[1..] == Lower(s[1..]);
      LowerSpaced(s[1..]);
    }
  }

  /** normalize_text: strip, collapse whitespace runs, lower-case. */
  function Normalize(text: string): string
  {
    Lower(Collapse(Strip(text)))
  }

  /** A normalised text: trimmed, single spaces only, and no upper-case letter. */
  predicate Normal(s: string)
  {
    && (s == [] || (!IsSpace(s[0]) && !IsSpace(s[|s| - 1])))
    && SingleSpaced(s)
    && (forall i :: 0 <= i < |s| ==> !IsUpper(s[i]))
  }

  lemma NormalizeIsNormal(text: string)
    ensures Normal(Normalize(text))
  {
    var t := Strip(text);
    StripTrimmed(text);
    CollapseShape(t);
    LowerSpaced(Collapse(t));
  }

  lemma {:induction false} CollapseFixed(s: string)
    requires SingleSpaced(s)
    ensures Collapse(s) == s
  {
    if s != [] {
      if IsSpace(s[0]) {
        if |s| > 1 {
          assert LStrip(s[1..]) == s[1..];
        }
        assert LStrip(s) == s[1..];
      }
      CollapseFixed(s[1..]);
      assert s == [s[0]] + s[1..];
    }
  }

  lemma NormalFixed(s: string)
    requires Normal(s)
    ensures Normalize(s) == s
  {
    assert RStrip(s) == s;
    assert LStrip(s) == s;
    CollapseFixed(s);
    assert Lower(s) == s;
  }

  /** Normalising twice is normalising once. */
  lemma NormalizeIdempotent(text: string)
    ensures Normalize(Normalize(text)) == Normalize(text)
  {
    NormalizeIsNormal(text);
    NormalFixed(Normalize(text));
  }

  /**
   * normalize_text as the methods call it: the key is a normal text, and
   * normalising it again changes nothing.
   */
  method NormalizeText(text: string) returns (n: string)
    ensures Normal(n) && Normalize(n) == n
    ensures n == Normalize(text)
  {
    n := Lower(Collapse(Strip(text)));
    NormalizeIsNormal(text);
    NormalizeIdempotent(text);
  }

  // ---------------------------------------------------------------- find_consecutive_duplicates

  /** The normalised texts of the entries, the keys the cleaner compares. */
  function Keys(entries: seq<SrtEntry>): (keys: seq<string>)
    ensures |keys| == |entries|
  {
    if entries == [] then []
    else Keys(entries[..|entries| - 1]) + [Normalize(entries[|entries| - 1].text)]
  }

  lemma {:induction false} KeyAt(entries: seq<SrtEntry>, k: nat)
    requires k < |entries|
    ensures Keys(entries)[k] == Normalize(entries[k].text)
  {
    if k < |entries| - 1 {
      KeyAt(entries[..|entries| - 1], k);
    }
  }

  /** A reported range: the first and last position of a run and its normalised text. */
  datatype DupRange<T> = DupRange(start: nat, end: nat, text: T)

  /** Where the run of keys[i], already known to reach j, ends (exclusive). */
  function RunEnd<T(==)>(keys: seq<T>, i: nat, j: nat): (e: nat)
    requires i < j <= |keys|
    ensures j <= e <= |keys|
    ensures forall k :: j <= k < e ==> keys[k] == keys[i]
    ensures e == |keys| || keys[e] != keys[i]
    decreases |keys| - j
  {
    if j < |keys| && keys[j] == keys[i] then RunEnd(keys, i, j + 1) else j
  }

  /** The scan from position i: report a long enough run and jump past it, or step by one. */
  function ScanFrom<T(==)>(keys: seq<T>, i: nat, threshold: int): seq<DupRange<T>>
    requires i <= |keys|
    decreases |keys| - i
  {
    if i == |keys| then []
    else
      var j := RunEnd(keys, i, i + 1);
      if j - i >= threshold then [DupRange(i, j - 1, keys[i])] + ScanFrom(keys, j, threshold)
      else ScanFrom(keys, i + 1, threshold)
  }

  function DupRuns<T(==)>(keys: seq<T>, threshold: int): seq<DupRange<T>>
  {
    if |keys| < threshold then [] else ScanFrom(keys, 0, threshold)
  }

  /** A maximal run of equal keys, at least `threshold` long. */
  predicate MaximalRun<T(==)>(keys: seq<T>, r: DupRange<T>, threshold: int)
  {
    && r.start <= r.end < |keys|
    && r.end - r.start + 1 >= threshold
    && r.text == keys[r.start]
    && (forall k :: r.start <= k <= r.end ==> keys[k] == r.text)
    && (r.start == 0 || keys[r.start - 1] != r.text)
    && (r.end + 1 == |keys| || keys[r.end + 1] != r.text)
  }

  /** Each range ends before the next one starts. */
  predicate Ordered<T>(ranges: seq<DupRange<T>>)
  {
    forall a :: 0 <= a < |ranges| - 1 ==> ranges[a].end < ranges[a + 1].start
  }

  /** Two positions holding the same key see their runs end at the same place. */
  lemma {:induction false} RunEndSame<T>(keys: seq<T>, a: nat, b: nat, j: nat)
    requires a < j && b < j && j <= |keys| && keys[a] == keys[b]
    ensures RunEnd(keys, a, j) == RunEnd(keys, b, j)
    decreases |keys| - j
  {
    if j < |keys| && keys[j] == keys[a] {
      RunEndSame(keys, a, b, j + 1);
    }
  }

  /** Where the scan stands: at a run start, or just after a position whose run was too short. */
  predicate ScanPoint<T(==)>(keys: seq<T>, i: nat, threshold: int)
    requires i <= |keys|
  {
    i == 0 || i == |keys| || keys[i - 1] != keys[i] || RunEnd(keys, i - 1, i) - (i - 1) < threshold
  }

  /** Position i continues the run of position i - 1: both runs end at the same place. */
  lemma {:induction false} ContinuedRun<T>(keys: seq<T>, i: nat)
    requires 0 < i < |keys|
    ensures keys[i - 1] == keys[i] ==> RunEnd(keys, i - 1, i) == RunEnd(keys, i, i + 1)
  {
    if keys[i - 1] == keys[i] {
      RunEndSame(keys, i - 1, i, i + 1);
    }
  }

  /** A long enough run that starts at i is maximal. */
  lemma RunFromStart<T>(keys: seq<T>, i: nat, threshold: int)
    requires i < |keys| && (i == 0 || keys[i - 1] != keys[i])
    requires RunEnd(keys, i, i + 1) - i >= threshold
    ensures MaximalRun(keys, DupRange(i, RunEnd(keys, i, i + 1) - 1, keys[i]), threshold)
  {
  }

  /** A run reported at a scan point is maximal: the scan never stands inside a long run. */
  lemma HeadIsMaximal<T>(keys: seq<T>, i: nat, threshold: int)
    requires i < |keys| && ScanPoint(keys, i, threshold)
    requires RunEnd(keys, i, i + 1) - i >= threshold
    ensures MaximalRun(keys, DupRange(i, RunEnd(keys, i, i + 1) - 1, keys[i]), threshold)
  {
    if i > 0 {
      ContinuedRun(keys, i);
    }
    RunFromStart(keys, i, threshold);
  }

  /** Every range is a maximal run at least `threshold` long. */
  predicate AllMaximal<T(==)>(keys: seq<T>, ranges: seq<DupRange<T>>, threshold: int)
  {
    forall r :: r in ranges ==> MaximalRun(keys, r, threshold)
  }

  /** No range starts before position i. */
  predicate StartAtLeast<T(==)>(ranges: seq<DupRange<T>>, i: int)
  {
    forall r :: r in ranges ==> i <= r.start
  }

  lemma {:induction false} OrderedCons<T>(h: DupRange<T>, rest: seq<DupRange<T>>)
    requires Ordered(rest) && StartAtLeast(rest, h.end + 1)
    ensures Ordered([h] + rest)
  {
    var s := [h] + rest;
    forall a | 0 <= a < |s| - 1
      ensures s[a].end < s[a + 1].start
    {
      assert s[a + 1] == rest[a];
      if a > 0 {
        assert s[a] == rest[a - 1];
      }
    }
  }

  /** The scan resumes at a scan point after a run. */
  lemma AfterRun<T>(keys: seq<T>, i: nat, threshold: int)
    requires i < |keys|
    ensures ScanPoint(keys, RunEnd(keys, i, i + 1), threshold)
  {
    var j := RunEnd(keys, i, i + 1);
    if j < |keys| {
      assert keys[j - 1] == keys[i];
    }
  }

  /** A maximal run in front of sound ranges that start after it gives sound ranges. */
  lemma ConsSound<T>(keys: seq<T>, head: DupRange<T>, rest: seq<DupRange<T>>, threshold: int)
    requires MaximalRun(keys, head, threshold)
    requires AllMaximal(keys, rest, threshold) && StartAtLeast(rest, head.end + 1) && Ordered(rest)
    ensures AllMaximal(keys, [head] + rest, threshold)
    ensures StartAtLeast([head] + rest, head.start)
    ensures Ordered([head] + rest)
  {
    OrderedCons(head, rest);
  }

  /** What the scan reports from a scan point: maximal runs, none before i, in order. */
  lemma {:induction false} ScanSound<T>(keys: seq<T>, i: nat, threshold: int)
    requires i <= |keys| && ScanPoint(keys, i, threshold)
    ensures AllMaximal(keys, ScanFrom(keys, i, threshold), threshold)
    ensures StartAtLeast(ScanFrom(keys, i, threshold), i)
    ensures Ordered(ScanFrom(keys, i, threshold))
    decreases |keys| - i
  {
    if i < |keys| {
      var j := RunEnd(keys, i, i + 1);
      if j - i >= threshold {
        var head := DupRange(i, j - 1, keys[i]);
        HeadIsMaximal(keys, i, threshold);
        AfterRun(keys, i, threshold);
        ScanSound(keys, j, threshold);
        ScanTake(keys, i, j, threshold, []);
        ConsSound(keys, head, ScanFrom(keys, j, threshold), threshold);
      } else {
        ScanSound(keys, i + 1, threshold);
        ScanSkip(keys, i, threshold);
      }
    }
  }

  /** The scan from any point at or before a maximal long run reports it. */
  lemma {:induction false} ScanComplete<T>(keys: seq<T>, i: nat, threshold: int, r: DupRange<T>)
    requires i <= r.start && MaximalRun(keys, r, threshold)
    ensures r in ScanFrom(keys, i, threshold)
    decreases |keys| - i
  {
    var j := RunEnd(keys, i, i + 1);
    if i == r.start {
      assert j == r.end + 1;
    } else {
      assert j <= r.start;
      if j - i >= threshold {
        ScanComplete(keys, j, threshold, r);
      } else {
        ScanComplete(keys, i + 1, threshold, r);
      }
    }
  }

  /** The reported ranges are exactly the maximal runs at least `threshold` long, in order and disjoint. */
  lemma DupRunsExact<T>(keys: seq<T>, threshold: int)
    ensures forall r :: r in DupRuns(keys, threshold) <==> MaximalRun(keys, r, threshold)
    ensures Ordered(DupRuns(keys, threshold))
  {
    if |keys| >= threshold {
      ScanSound(keys, 0, threshold);
      forall r | MaximalRun(keys, r, threshold)
        ensures r in DupRuns(keys, threshold)
      {
        ScanComplete(keys, 0, threshold, r);
      }
    }
  }

  /** One step of the scan that reports a run and resumes after it. */
  lemma ScanTake<T>(keys: seq<T>, i: nat, j: nat, threshold: int, ranges: seq<DupRange<T>>)
    requires i < |keys| && j == RunEnd(keys, i, i + 1) && j - i >= threshold
    ensures ranges + ScanFrom(keys, i, threshold) == (ranges + [DupRange(i, j - 1, keys[i])]) + ScanFrom(keys, j, threshold)
  {
  }

  /** One step of the scan past a run too short to report. */
  lemma ScanSkip<T>(keys: seq<T>, i: nat, threshold: int)
    requires i < |keys| && RunEnd(keys, i, i + 1) - i < threshold
    ensures ScanFrom(keys, i, threshold) == ScanFrom(keys, i + 1, threshold)
  {
  }

  /** The inner loop: the normalised text at i and where its run ends. */
  method RunAt(entries: seq<SrtEntry>, i: nat) returns (current: string, j: nat)
    requires i < |entries|
    ensures current == Keys(entries)[i]
    ensures j == RunEnd(Keys(entries), i, i + 1)
  {
    ghost var keys := Keys(entries);
    current := Normalize(entries[i].text);
    KeyAt(entries, i);
    var count := 1;
    j := i + 1;
    while j < |entries| && Normalize(entries[j].text) == current
      invariant i < j <= |entries| && count == j - i
      invariant RunEnd(keys, i, j) == RunEnd(keys, i, i + 1)
    {
      KeyAt(entries, j);
      count := count + 1;
      j := j + 1;
    }
    if j < |entries| {
      KeyAt(entries, j);
    }
  }

  /**
   * find_consecutive_duplicates: fewer entries than the threshold give no
   * range; otherwise the scan over i, reporting each run at least
   * `threshold` long and resuming after it.
   */
  method FindConsecutiveDuplicates(entries: seq<SrtEntry>, threshold: int) returns (ranges: seq<DupRange<string>>)
    ensures ranges == DupRuns(Keys(entries), threshold)
  {
    if |entries| < threshold {
      return [];
    }
    ghost var keys := Keys(entries);
    ranges := [];
    var i := 0;
    while i < |entries|
      invariant 0 <= i <= |entries|
      invariant ScanFrom(keys, 0, threshold) == ranges + ScanFrom(keys, i, threshold)
      decreases |entries| - i
    {
      var current, j := RunAt(entries, i);
      var count := j - i;
      if count >= threshold {
        ScanTake(keys, i, j, threshold, ranges);
        ranges := ranges + [DupRange(i, j - 1, current)];
        i := j;
      } else {
        ScanSkip(keys, i, threshold);
        i := i + 1;
      }
    }
  }

  // ---------------------------------------------------------------- remove_duplicates

  /** The positions a range drops: all but its first. */
  function Interval<T(==)>(r: DupRange<T>): set<int>
  {
    Span(r.start, r.end)
  }

  /** The integers k with lo < k <= hi. */
  function Span(lo: int, hi: int): (ks: set<int>)
    ensures forall k :: k in ks <==> lo < k <= hi
    ensures lo <= hi ==> |ks| == hi - lo
    decreases hi - lo
  {
    if hi <= lo then {} else Span(lo, hi - 1) + {hi}
  }

  /** `indices_to_remove` for a list of ranges. */
  function Inner<T(==)>(ranges: seq<DupRange<T>>): set<int>
  {
    if ranges == [] then {} else Inner(ranges[..|ranges| - 1]) + Interval(ranges[|ranges| - 1])
  }

  /** Σ (end - start): the number of entries the ranges drop. */
  function Removed<T(==)>(ranges: seq<DupRange<T>>): nat
  {
    if ranges == [] then 0
    else
      var r := ranges[|ranges| - 1];
      Removed(ranges[..|ranges| - 1]) + (if r.end >= r.start then r.end - r.start else 0)
  }

  /** The list comprehension that keeps the entries whose position is not dropped. */
  function Keep<T>(s: seq<T>, drop: set<int>): seq<T>
  {
    if s == [] then []
    else Keep(s[..|s| - 1], drop) + (if |s| - 1 in drop then [] else [s[|s| - 1]])
  }

  predicate Distinct(entries: seq<SrtEntry>)
  {
    forall a, b :: 0 <= a < b < |entries| ==> entries[a] != entries[b]
  }

  lemma {:induction false} KeepFrom<T>(s: seq<T>, drop: set<int>)
    ensures forall x :: x in Keep(s, drop) ==> x in s
  {
    if s != [] {
      KeepFrom(s[..|s| - 1], drop);
    }
  }

  lemma {:induction false} KeepDistinct(s: seq<SrtEntry>, drop: set<int>)
    requires Distinct(s)
    ensures Distinct(Keep(s, drop))
  {
    if s != [] {
      var init := s[..|s| - 1];
      KeepDistinct(init, drop);
      KeepFrom(init, drop);
      assert s[|s| - 1] !in init;
    }
  }

  lemma {:induction false} KeepNothing<T>(s: seq<T>)
    ensures Keep(s, {}) == s
  {
    if s != [] {
      KeepNothing(s[..|s| - 1]);
    }
  }

  /** Positions of `drop` below n. */
  function Below(drop: set<int>, n: nat): set<int>
  {
    set k | k in drop && 0 <= k < n
  }

  lemma {:induction false} KeepLength<T>(s: seq<T>, drop: set<int>)
    ensures |Keep(s, drop)| == |s| - |Below(drop, |s|)|
  {
    if s == [] {
      assert Below(drop, 0) == {};
    } else {
      var n := |s|;
      KeepLength(s[..n - 1], drop);
      if n - 1 in drop {
        assert Below(drop, n) == Below(drop, n - 1) + {n - 1};
      } else {
        assert Below(drop, n) == Below(drop, n - 1);
      }
    }
  }

  /** Ranges that are ordered and in bounds drop exactly Σ (end - start) positions, all below the last end. */
  lemma {:induction false} InnerSize<T>(ranges: seq<DupRange<T>>)
    requires Ordered(ranges)
    requires forall r :: r in ranges ==> r.start <= r.end
    ensures |Inner(ranges)| == Removed(ranges)
    ensures ranges != [] ==> forall k :: k in Inner(ranges) ==> k <= ranges[|ranges| - 1].end
  {
    if ranges != [] {
      var init := ranges[..|ranges| - 1];
      var last := ranges[|ranges| - 1];
      assert forall r :: r in init ==> r in ranges;
      InnerSize(init);
      if init != [] {
        assert init[|init| - 1].end < last.start;
      }
      assert Inner(init) * Interval(last) == {};
    }
  }

  /** Dropping the last range keeps the ranges ordered and well formed. */
  lemma InitProper<T>(ranges: seq<DupRange<T>>)
    requires ranges != [] && Ordered(ranges) && forall r :: r in ranges ==> r.start <= r.end
    ensures var init := ranges[..|ranges| - 1];
      Ordered(init) && forall r :: r in init ==> r.start <= r.end
  {
    var init := ranges[..|ranges| - 1];
    assert forall r :: r in init ==> r in ranges;
  }

  lemma {:induction false} InnerHeads<T>(ranges: seq<DupRange<T>>, a: nat)
    requires Ordered(ranges) && forall r :: r in ranges ==> r.start <= r.end
    requires a < |ranges|
    ensures ranges[a].start !in Inner(ranges)
  {
    var init := ranges[..|ranges| - 1];
    var last := ranges[|ranges| - 1];
    assert last in ranges;
    assert Inner(ranges) == Inner(init) + Interval(last);
    if a < |ranges| - 1 {
      InitProper(ranges);
      InnerHeads(init, a);
      OrderedChain(ranges, a, |ranges| - 1);
      assert init[a] == ranges[a] && ranges[a] in ranges;
    } else if |ranges| > 1 {
      InitProper(ranges);
      InnerSize(init);
      assert init[|init| - 1] == ranges[|ranges| - 2];
    }
  }

  lemma {:induction false} OrderedChain<T>(ranges: seq<DupRange<T>>, a: nat, b: nat)
    requires Ordered(ranges) && forall r :: r in ranges ==> r.start <= r.end
    requires a < b < |ranges|
    ensures ranges[a].end < ranges[b].start
    decreases b - a
  {
    if a + 1 < b {
      OrderedChain(ranges, a + 1, b);
      assert ranges[a + 1] in ranges;
    }
  }

  /** The reported ranges are ordered and lie inside the list. */
  lemma RunsInBounds<T>(keys: seq<T>, threshold: int)
    ensures Ordered(DupRuns(keys, threshold))
    ensures forall r :: r in DupRuns(keys, threshold) ==> r.start <= r.end < |keys|
  {
    DupRunsExact(keys, threshold);
    forall r | r in DupRuns(keys, threshold)
      ensures r.start <= r.end < |keys|
    {
      assert MaximalRun(keys, r, threshold);
    }
  }

  /** Removal shrinks the list by exactly Σ (end - start) entries. */
  lemma CleanedLength<T, U>(entries: seq<U>, keys: seq<T>, threshold: int)
    requires |keys| == |entries|
    ensures var ranges := DupRuns(keys, threshold);
      |Keep(entries, Inner(ranges))| == |entries| - Removed(ranges)
  {
    var ranges := DupRuns(keys, threshold);
    RunsInBounds(keys, threshold);
    InnerSize(ranges);
    KeepLength(entries, Inner(ranges));
    if ranges != [] {
      assert ranges[|ranges| - 1] in ranges;
      InnerCovers(ranges);
      forall k | k in Inner(ranges)
        ensures 0 <= k < |entries|
      {
        var a :| 0 <= a < |ranges| && ranges[a].start < k <= ranges[a].end;
      }
    }
    assert Below(Inner(ranges), |entries|) == Inner(ranges);
  }

  /** The cleaned list differs from the parsed one exactly when some entry is dropped. */
  lemma RewriteNeeded<T, U>(entries: seq<U>, keys: seq<T>, threshold: int)
    requires |keys| == |entries|
    ensures var ranges := DupRuns(keys, threshold);
      Keep(entries, Inner(ranges)) != entries <==> Removed(ranges) > 0
  {
    CleanedLength(entries, keys, threshold);
    if Removed(DupRuns(keys, threshold)) == 0 {
      NothingRemoved(entries, keys, threshold);
    }
  }

  /** Removal keeps the first entry of every range. */
  lemma HeadsKept<T>(keys: seq<T>, threshold: int)
    ensures var ranges := DupRuns(keys, threshold);
      forall a :: 0 <= a < |ranges| ==> ranges[a].start !in Inner(ranges)
  {
    var ranges := DupRuns(keys, threshold);
    RunsInBounds(keys, threshold);
    forall a | 0 <= a < |ranges|
      ensures ranges[a].start !in Inner(ranges)
    {
      InnerHeads(ranges, a);
    }
  }

  /** With nothing to drop the list comes back unchanged. */
  lemma NothingRemoved<T, U>(entries: seq<U>, keys: seq<T>, threshold: int)
    requires Removed(DupRuns(keys, threshold)) == 0
    ensures Keep(entries, Inner(DupRuns(keys, threshold))) == entries
  {
    var ranges := DupRuns(keys, threshold);
    RunsInBounds(keys, threshold);
    InnerSize(ranges);
    assert Inner(ranges) == {};
    KeepNothing(entries);
  }

  lemma {:induction false} InnerCovers<T>(ranges: seq<DupRange<T>>)
    ensures forall k :: k in Inner(ranges) ==> exists a :: 0 <= a < |ranges| && ranges[a].start < k <= ranges[a].end
  {
    if ranges != [] {
      var init := ranges[..|ranges| - 1];
      InnerCovers(init);
      forall k | k in Inner(ranges)
        ensures exists a :: 0 <= a < |ranges| && ranges[a].start < k <= ranges[a].end
      {
        if k in Inner(init) {
          var a :| 0 <= a < |init| && init[a].start < k <= init[a].end;
          assert ranges[a] == init[a];
        } else {
          assert ranges[|ranges| - 1].start < k <= ranges[|ranges| - 1].end;
        }
      }
    }
  }

  /** The inner loop of the removal: add the positions a range drops. */
  method AddInterval<T>(toRemove: set<int>, r: DupRange<T>) returns (result: set<int>)
    ensures result == toRemove + Interval(r)
  {
    result := toRemove;
    var idx := r.start + 1;
    while idx < r.end + 1
      invariant r.start + 1 <= idx && (idx <= r.end + 1 || idx == r.start + 1)
      invariant result == toRemove + Span(r.start, idx - 1)
    {
      assert Span(r.start, idx) == Span(r.start, idx - 1) + {idx};
      result := result + {idx};
      idx := idx + 1;
    }
    if r.end < r.start {
      assert Span(r.start, r.end) == {};
    }
  }

  lemma PrefixSnoc<T>(s: seq<T>, a: nat)
    requires a < |s|
    ensures s[..a + 1][..a] == s[..a] && s[..a + 1][a] == s[a]
  {
  }

  /** The loop over the ranges: the positions to drop and how many entries that removes. */
  method CollectRemovals<T>(ranges: seq<DupRange<T>>) returns (toRemove: set<int>, removed: nat)
    ensures toRemove == Inner(ranges) && removed == Removed(ranges)
  {
    toRemove := {};
    removed := 0;
    var a := 0;
    while a < |ranges|
      invariant 0 <= a <= |ranges|
      invariant toRemove == Inner(ranges[..a]) && removed == Removed(ranges[..a])
    {
      var r := ranges[a];
      PrefixSnoc(ranges, a);
      toRemove := AddInterval(toRemove, r);
      removed := removed + (if r.end >= r.start then r.end - r.start else 0);
      a := a + 1;
    }
    assert ranges[..a] == ranges;
  }

  /** `[entry for i, entry in enumerate(entries) if i not in indices_to_remove]`. */
  method KeepEntries(entries: seq<SrtEntry>, toRemove: set<int>) returns (cleaned: seq<SrtEntry>)
    ensures cleaned == Keep(entries, toRemove)
  {
    cleaned := [];
    var i := 0;
    while i < |entries|
      invariant 0 <= i <= |entries|
      invariant cleaned == Keep(entries[..i], toRemove)
    {
      assert entries[..i + 1][..i] == entries[..i];
      if i !in toRemove {
        cleaned := cleaned + [entries[i]];
      }
      i := i + 1;
    }
    assert entries[..i] == entries;
  }

  /** Renumbering in place: the entries of the list get the numbers 1..n. */
  method Renumber(entries: seq<SrtEntry>)
    requires Distinct(entries)
    modifies set e | e in entries
    ensures forall k :: 0 <= k < |entries| ==> entries[k].index == k + 1
  {
    var i := 0;
    while i < |entries|
      invariant 0 <= i <= |entries|
      invariant forall k :: 0 <= k < i ==> entries[k].index == k + 1
    {
      entries[i].index := i + 1;
      i := i + 1;
    }
  }

  /** The Counter of the normalised texts of a list. */
  method CountKeys(entries: seq<SrtEntry>) returns (counter: multiset<string>)
    ensures counter == multiset(Keys(entries))
  {
    ghost var keys := Keys(entries);
    counter := multiset{};
    var i := 0;
    while i < |entries|
      invariant 0 <= i <= |entries|
      invariant counter == multiset(keys[..i])
    {
      var normalized := NormalizeText(entries[i].text);
      KeyAt(entries, i);
      CountSnoc(keys, i);
      counter := counter + multiset{normalized};
      i := i + 1;
    }
    assert keys[..i] == keys;
  }

  lemma CountSnoc<T>(s: seq<T>, i: nat)
    requires i < |s|
    ensures multiset(s[..i + 1]) == multiset(s[..i]) + multiset{s[i]}
  {
    assert s[..i + 1] == s[..i] + [s[i]];
  }

  /** `{text: count for text, count in counter.items() if count > 1}`. */
  function Repeated<T(!new)>(counter: multiset<T>): (m: map<T, nat>)
    ensures forall t :: t in m <==> counter[t] > 1
    ensures forall t :: t in m ==> m[t] == counter[t]
  {
    map t | t in counter && counter[t] > 1 :: counter[t]
  }

  /**
   * The body of remove_duplicates once ranges were found: drop the positions
   * they cover but their first, and number what is left 1..n in place.
   */
  method CleanEntries<T>(entries: seq<SrtEntry>, ranges: seq<DupRange<T>>) returns (cleaned: seq<SrtEntry>, removed: nat)
    requires Distinct(entries)
    modifies entries
    ensures cleaned == Keep(entries, Inner(ranges)) && removed == Removed(ranges)
    ensures forall k :: 0 <= k < |cleaned| ==> cleaned[k].index == k + 1
    ensures forall e :: e in entries && e !in cleaned ==> e.index == old(e.index)
  {
    var toRemove;
    toRemove, removed := CollectRemovals(ranges);
    cleaned := KeepEntries(entries, toRemove);
    KeepDistinct(entries, toRemove);
    KeepFrom(entries, toRemove);
    Renumber(cleaned);
  }

  const DefaultThreshold: int := 3

  class SrtCleaner {
    const repeatThreshold: int
    var processedFiles: nat
    var totalRemoved: nat
    /** The global Counter of normalised texts. */
    var globalDuplicates: multiset<string>

    constructor (repeatThreshold: int)
      ensures this.repeatThreshold == repeatThreshold
      ensures processedFiles == 0 && totalRemoved == 0 && globalDuplicates == multiset{}
    {
      this.repeatThreshold := repeatThreshold;
      processedFiles := 0;
      totalRemoved := 0;
      globalDuplicates := multiset{};
    }

    /**
     * remove_duplicates: with no entries or no range the list itself comes
     * back; otherwise the entries outside the dropped positions, renumbered
     * 1..n in place, and `totalRemoved` grows by the number dropped.
     */
    method RemoveDuplicates(entries: seq<SrtEntry>) returns (cleaned: seq<SrtEntry>)
      requires Distinct(entries)
      modifies this, entries
      ensures var ranges := DupRuns(Keys(entries), repeatThreshold);
        && (ranges == [] ==> cleaned == entries && forall e :: e in entries ==> e.index == old(e.index))
        && (ranges != [] ==> cleaned == Keep(entries, Inner(ranges)) &&
                             forall k :: 0 <= k < |cleaned| ==> cleaned[k].index == k + 1)
        && totalRemoved == old(totalRemoved) + Removed(ranges)
      ensures forall e :: e in entries && e !in cleaned ==> e.index == old(e.index)
      ensures processedFiles == old(processedFiles) && globalDuplicates == old(globalDuplicates)
    {
      if |entries| == 0 {
        return entries;
      }
      var ranges := FindConsecutiveDuplicates(entries, repeatThreshold);
      if ranges == [] {
        return entries;
      }
      var removed;
      cleaned, removed := CleanEntries(entries, ranges);
      totalRemoved := totalRemoved + removed;
    }

    /**
     * analyze_duplicates: the normalised texts that occur more than once,
     * with their counts; every entry is added to the global counter.
     */
    method AnalyzeDuplicates(entries: seq<SrtEntry>) returns (duplicates: map<string, nat>)
      modifies this
      ensures forall t :: t in duplicates <==> multiset(Keys(entries))[t] > 1
      ensures forall t :: t in duplicates ==> duplicates[t] == multiset(Keys(entries))[t]
      ensures globalDuplicates == old(globalDuplicates) + multiset(Keys(entries))
      ensures processedFiles == old(processedFiles) && totalRemoved == old(totalRemoved)
    {
      var counter := CountKeys(entries);
      globalDuplicates := globalDuplicates + counter;
      duplicates := Repeated(counter);
    }

    /**
     * process_file, from the parsed entries: nothing parsed gives false and
     * changes nothing; otherwise the entries are analysed and cleaned, the
     * file is rewritten (at the output path, by default the input path) only
     * when the cleaned list differs, and the file is counted.  The kept
     * entries are renumbered from 1 whenever a run was found, and the
     * counters grow by this file's keys and removals.
     */
    method ProcessFile(inputPath: string, outputPath: Option<string>, entries: seq<SrtEntry>)
      returns (ok: bool, written: Option<(string, string)>)
      requires Distinct(entries)
      modifies this, entries
      ensures ok <==> entries != []
      ensures !ok ==> processedFiles == old(processedFiles) && totalRemoved == old(totalRemoved) &&
                      globalDuplicates == old(globalDuplicates) && written == None
      ensures ok ==> processedFiles == old(processedFiles) + 1
      ensures ok ==> totalRemoved == old(totalRemoved) + Removed(DupRuns(Keys(entries), repeatThreshold))
      ensures ok ==> globalDuplicates == old(globalDuplicates) + multiset(Keys(entries))
      ensures ok ==> var ranges := DupRuns(Keys(entries), repeatThreshold);
        && (ranges != [] ==> forall k :: 0 <= k < |Keep(entries, Inner(ranges))| ==>
                               Keep(entries, Inner(ranges))[k].index == k + 1)
        && (ranges == [] ==> forall e :: e in entries ==> e.index == old(e.index))
      ensures written.Some? <==> ok && Removed(DupRuns(Keys(entries), repeatThreshold)) > 0
      ensures written.Some? ==>
        && written.value.0 == (if outputPath.Some? then outputPath.value else inputPath)
        && written.value.1 == FileContent(Keep(entries, Inner(DupRuns(Keys(entries), repeatThreshold))))
    {
      var target := if outputPath.Some? then outputPath.value else inputPath;
      if entries == [] {
        return false, None;
      }
      var _ := AnalyzeDuplicates(entries);
      var cleaned := RemoveDuplicates(entries);
      RewriteNeeded(entries, Keys(entries), repeatThreshold);
      processedFiles := processedFiles + 1;
      ok := true;
      written := if cleaned != entries then Some((target, FileContent(cleaned))) else None;
    }
  }
}
