/**
 * What `merge_files` writes, stated line by line of the two exports rather
 * than turn by turn: the pair count, the layout of the report, the value
 * column in each mode, the first failure that ends a merge, and the lines
 * the merge never looks at.
 */
module MergeProperties {
  import opened Wrappers
  import opened Text
  import opened Records
  import opened Merge

  /** Every line `readline` returns before end of file holds at least its newline. */
  predicate NoBlankLines(lines: seq<string>) {
    forall k :: 0 <= k < |lines| ==> |lines[k]| > 0
  }

  /** The number of data lines of the shorter export: its header line does not count. */
  function PairCount(mosi: seq<string>, miso: seq<string>): nat {
    var shorter := if |mosi| < |miso| then |mosi| else |miso|;
    if shorter == 0 then 0 else shorter - 1
  }

  predicate Parses(lines: seq<string>, k: nat) {
    k < |lines| && ParseLine(lines[k]).Some?
  }

  function RecordAt(lines: seq<string>, k: nat): Record
    requires Parses(lines, k)
  {
    ParseLine(lines[k]).value
  }

  /**
   * The delta of data line `k` (line 1 is the first data line) can be
   * computed: its id is 0, or an earlier data line of the same export has
   * set the last timestamp.
   */
  predicate DeltaDefined(lines: seq<string>, k: nat)
    requires Parses(lines, k)
  {
    RecordAt(lines, k).transferId == 0 || k >= 2
  }

  /** The delta of data line `k`: 0 at id 0, else the distance from data line `k - 1` of the same export. */
  function DeltaAt(lines: seq<string>, k: nat): int
    requires Parses(lines, k) && DeltaDefined(lines, k)
    requires k >= 2 ==> Parses(lines, k - 1)
  {
    if RecordAt(lines, k).transferId == 0 then 0
    else RecordAt(lines, k).timestamp - RecordAt(lines, k - 1).timestamp
  }

  /** The value column of data line `k`: its delta in delta mode, its timestamp otherwise. */
  function ValueAt(delta: bool, lines: seq<string>, k: nat): int
    requires Parses(lines, k) && DeltaDefined(lines, k)
    requires k >= 2 ==> Parses(lines, k - 1)
  {
    if delta then DeltaAt(lines, k) else RecordAt(lines, k).timestamp
  }

  /** Data line `k` of both exports can be written: both parse and both deltas exist. */
  predicate PairGood(mosi: seq<string>, miso: seq<string>, k: nat) {
    Parses(mosi, k) && Parses(miso, k) && DeltaDefined(mosi, k) && DeltaDefined(miso, k)
  }

  /** The first `n` pairs can all be written. */
  predicate CleanUpTo(mosi: seq<string>, miso: seq<string>, n: nat) {
    forall k :: 1 <= k <= n ==> PairWritable(mosi, miso, k)
  }

  lemma CleanUpToAt(mosi: seq<string>, miso: seq<string>, n: nat, k: nat)
    requires CleanUpTo(mosi, miso, n) && 1 <= k <= n
    ensures PairGood(mosi, miso, k) && PairWritable(mosi, miso, k) && CleanUpTo(mosi, miso, k)
  {
    assert PairWritable(mosi, miso, k);
  }

  lemma CleanUpToLast(mosi: seq<string>, miso: seq<string>, k: nat)
    requires 1 <= k && CleanUpTo(mosi, miso, k)
    ensures PairGood(mosi, miso, k) && PairWritable(mosi, miso, k)
    ensures k >= 2 ==> Parses(mosi, k - 1) && Parses(miso, k - 1)
  {
    assert PairWritable(mosi, miso, k);
  }

  /** Pair `k` can be written and, past the first pair, the lines before it parse. */
  predicate PairWritable(mosi: seq<string>, miso: seq<string>, k: nat) {
    PairGood(mosi, miso, k) && (k >= 2 ==> Parses(mosi, k - 1) && Parses(miso, k - 1))
  }

  /** The three chunks written for data line `k`. */
  function PairRows(delta: bool, mosi: seq<string>, miso: seq<string>, k: nat): seq<string>
    requires 1 <= k && PairWritable(mosi, miso, k)
  {
    [ RecordLine(RecordAt(mosi, k), Mosi, ValueAt(delta, mosi, k)),
      RecordLine(RecordAt(miso, k), Miso, ValueAt(delta, miso, k)),
      "\n" ]
  }

  /** The chunks of the pairs `lo` to `hi` of a table `f` of three-chunk groups, in order. */
  function Concat(f: nat -> seq<string>, lo: nat, hi: nat): seq<string>
    decreases hi + 1 - lo
  {
    if lo > hi then [] else f(lo) + Concat(f, lo + 1, hi)
  }

  /** The chunks of pair `k`, or nothing where the pair cannot be written. */
  function Chunks(delta: bool, mosi: seq<string>, miso: seq<string>): nat -> seq<string> {
    (k: nat) => if 1 <= k && PairWritable(mosi, miso, k) then PairRows(delta, mosi, miso, k) else []
  }

  /** The chunks written for data lines `lo` to `hi`, in order. */
  function Rows(delta: bool, mosi: seq<string>, miso: seq<string>, lo: nat, hi: nat): seq<string> {
    Concat(Chunks(delta, mosi, miso), lo, hi)
  }

  /** The error of a pair that cannot be written, checked in the source's order. */
  function ErrorAt(mosi: seq<string>, miso: seq<string>, k: nat): MergeError
    requires !PairGood(mosi, miso, k)
  {
    if !Parses(mosi, k) then ParseFailure(Mosi)
    else if !Parses(miso, k) then ParseFailure(Miso)
    else if !DeltaDefined(mosi, k) then UnboundTimestamp(Mosi)
    else UnboundTimestamp(Miso)
  }

  /** The last timestamp the loop holds when it reaches line `i`: none before the first pair. */
  function Prev(lines: seq<string>, i: nat): Option<int> {
    if i >= 2 && Parses(lines, i - 1) then Some(RecordAt(lines, i - 1).timestamp) else None
  }

  /** The delta the loop derives at line `k` is the line-indexed one, and exists exactly when it is defined. */
  lemma NextDeltaAt(lines: seq<string>, k: nat)
    requires 1 <= k && Parses(lines, k)
    requires k >= 2 ==> Parses(lines, k - 1)
    ensures NextDelta(RecordAt(lines, k), Prev(lines, k)).Some? <==> DeltaDefined(lines, k)
    ensures DeltaDefined(lines, k) ==> NextDelta(RecordAt(lines, k), Prev(lines, k)).value == DeltaAt(lines, k)
  {
  }

  /** A step at a line pair that can be written emits the line-indexed rows and timestamps. */
  lemma PairStepGood(delta: bool, mosi: seq<string>, miso: seq<string>, i: nat)
    requires 1 <= i && CleanUpTo(mosi, miso, i) && PairGood(mosi, miso, i)
    ensures PairStep(delta, mosi[i], miso[i], Prev(mosi, i), Prev(miso, i))
         == Emit(PairRows(delta, mosi, miso, i), RecordAt(mosi, i).timestamp, RecordAt(miso, i).timestamp)
  {
    CleanUpToLast(mosi, miso, i);
    NextDeltaAt(mosi, i);
    NextDeltaAt(miso, i);
  }

  /** A step at a line pair that cannot be written stops with the pair's error. */
  lemma PairStepBad(delta: bool, mosi: seq<string>, miso: seq<string>, i: nat)
    requires 1 <= i < |mosi| && i < |miso|
    requires CleanUpTo(mosi, miso, i - 1) && !PairGood(mosi, miso, i)
    ensures PairStep(delta, mosi[i], miso[i], Prev(mosi, i), Prev(miso, i)) == Stop(ErrorAt(mosi, miso, i))
  {
    if i >= 2 {
      CleanUpToAt(mosi, miso, i - 1, i - 1);
    }
    if Parses(mosi, i) && Parses(miso, i) {
      NextDeltaAt(mosi, i);
      NextDeltaAt(miso, i);
    }
  }

  /** A turn at a data line `i` that can be written emits its rows, then the merge goes on at line `i + 1`. */
  lemma TurnAtGood(delta: bool, mosi: seq<string>, miso: seq<string>, i: nat)
    requires 1 <= i <= PairCount(mosi, miso)
    requires NoBlankLines(mosi) && NoBlankLines(miso)
    requires CleanUpTo(mosi, miso, i)
    ensures var rest := MergeFrom(delta, mosi, miso, i + 1, Prev(mosi, i + 1), Prev(miso, i + 1));
      MergeFrom(delta, mosi, miso, i, Prev(mosi, i), Prev(miso, i))
      == Outcome(PairRows(delta, mosi, miso, i) + rest.written, rest.status)
  {
    assert |mosi[i]| > 0 && |miso[i]| > 0;
    assert ReadLine(miso, i) == miso[i];
    CleanUpToLast(mosi, miso, i);
    PairStepGood(delta, mosi, miso, i);
  }

  /** A turn at a data line `i` that cannot be written ends the merge there with the pair's error. */
  lemma TurnAtBad(delta: bool, mosi: seq<string>, miso: seq<string>, i: nat)
    requires 1 <= i <= PairCount(mosi, miso)
    requires NoBlankLines(mosi) && NoBlankLines(miso)
    requires CleanUpTo(mosi, miso, i - 1) && !PairGood(mosi, miso, i)
    ensures MergeFrom(delta, mosi, miso, i, Prev(mosi, i), Prev(miso, i)) == Outcome([], Aborted(ErrorAt(mosi, miso, i)))
  {
    assert |mosi[i]| > 0 && |miso[i]| > 0;
    assert ReadLine(miso, i) == miso[i];
    PairStepBad(delta, mosi, miso, i);
  }

  /**
   * A run of turns from `lo` to `hi`, each of which writes `f(j)` before what
   * the turns after it write, writes the groups of `f` from `lo` to `hi` and
   * then what the merge writes from `hi + 1` on, and ends the same way.
   */
  lemma {:induction false} TurnsChain(g: nat -> Outcome, f: nat -> seq<string>, lo: nat, hi: nat)
    requires lo <= hi + 1
    requires forall j :: lo <= j <= hi ==> g(j) == Outcome(f(j) + g(j + 1).written, g(j + 1).status)
    ensures g(lo) == Outcome(Concat(f, lo, hi) + g(hi + 1).written, g(hi + 1).status)
    decreases hi + 1 - lo
  {
    if lo <= hi {
      TurnsChain(g, f, lo + 1, hi);
      AppendAssoc(f(lo), Concat(f, lo + 1, hi), g(hi + 1).written);
    }
  }

  /** A run of such turns that ends at `hi + 1` with nothing more written writes the groups from `lo` to `hi`. */
  lemma TurnsEnd(g: nat -> Outcome, f: nat -> seq<string>, lo: nat, hi: nat)
    requires lo <= hi + 1 && g(hi + 1).written == []
    requires forall j :: lo <= j <= hi ==> g(j) == Outcome(f(j) + g(j + 1).written, g(j + 1).status)
    ensures g(lo) == Outcome(Concat(f, lo, hi), g(hi + 1).status)
  {
    TurnsChain(g, f, lo, hi);
    assert Concat(f, lo, hi) + [] == Concat(f, lo, hi);
  }

  /** The merge from line `j` with the last timestamps the loop holds there. */
  function MergeAt(delta: bool, mosi: seq<string>, miso: seq<string>): nat -> Outcome {
    (j: nat) => MergeFrom(delta, mosi, miso, j, Prev(mosi, j), Prev(miso, j))
  }

  /** Between `lo` and `hi`, every pair can be written, and each turn writes that pair's chunks before the turns after it. */
  lemma TurnsGood(delta: bool, mosi: seq<string>, miso: seq<string>, lo: nat, hi: nat)
    requires 1 <= lo && hi <= PairCount(mosi, miso)
    requires NoBlankLines(mosi) && NoBlankLines(miso)
    requires CleanUpTo(mosi, miso, hi)
    ensures var g, f := MergeAt(delta, mosi, miso), Chunks(delta, mosi, miso);
      forall j :: lo <= j <= hi ==> g(j) == Outcome(f(j) + g(j + 1).written, g(j + 1).status)
  {
    var g, f := MergeAt(delta, mosi, miso), Chunks(delta, mosi, miso);
    forall j | lo <= j <= hi
      ensures g(j) == Outcome(f(j) + g(j + 1).written, g(j + 1).status)
    {
      CleanUpToAt(mosi, miso, hi, j);
      TurnAtGood(delta, mosi, miso, j);
    }
  }

  /** When every pair can be written, the merge from line `i` writes the rows of lines `i` to the last pair and finishes. */
  lemma MergeFromClean(delta: bool, mosi: seq<string>, miso: seq<string>, i: nat)
    requires 1 <= i <= PairCount(mosi, miso) + 1
    requires NoBlankLines(mosi) && NoBlankLines(miso)
    requires CleanUpTo(mosi, miso, PairCount(mosi, miso))
    ensures MergeFrom(delta, mosi, miso, i, Prev(mosi, i), Prev(miso, i))
         == Outcome(Rows(delta, mosi, miso, i, PairCount(mosi, miso)), Finished)
  {
    var n := PairCount(mosi, miso);
    var g, f := MergeAt(delta, mosi, miso), Chunks(delta, mosi, miso);
    TurnsGood(delta, mosi, miso, i, n);
    assert |ReadLine(mosi, n + 1)| == 0 || |ReadLine(miso, n + 1)| == 0;
    assert g(n + 1) == Outcome([], Finished);
    TurnsEnd(g, f, i, n);
  }

  /** When pair `k` is the first that cannot be written, the merge from line `i` writes the rows before it and stops with its error. */
  lemma MergeFromAbort(delta: bool, mosi: seq<string>, miso: seq<string>, i: nat, k: nat)
    requires 1 <= i <= k <= PairCount(mosi, miso)
    requires NoBlankLines(mosi) && NoBlankLines(miso)
    requires CleanUpTo(mosi, miso, k - 1) && !PairGood(mosi, miso, k)
    ensures MergeFrom(delta, mosi, miso, i, Prev(mosi, i), Prev(miso, i))
         == Outcome(Rows(delta, mosi, miso, i, k - 1), Aborted(ErrorAt(mosi, miso, k)))
  {
    var g, f := MergeAt(delta, mosi, miso), Chunks(delta, mosi, miso);
    TurnsGood(delta, mosi, miso, i, k - 1);
    TurnAtBad(delta, mosi, miso, k);
    assert g(k) == Outcome([], Aborted(ErrorAt(mosi, miso, k)));
    TurnsEnd(g, f, i, k - 1);
  }

  /** A merge whose pairs can all be written writes the header, then the rows of every pair, and finishes. */
  lemma MergeCompletes(mosiPath: string, misoPath: string, mosi: seq<string>, miso: seq<string>, delta: bool)
    requires NoBlankLines(mosi) && NoBlankLines(miso)
    requires CleanUpTo(mosi, miso, PairCount(mosi, miso))
    ensures MergeOutcome(mosiPath, misoPath, mosi, miso, delta)
         == Outcome(Header(mosiPath, misoPath, delta) + Rows(delta, mosi, miso, 1, PairCount(mosi, miso)), Finished)
  {
    MergeFromClean(delta, mosi, miso, 1);
  }

  /**
   * A merge whose first unwritable pair is `k` raises that pair's error, and
   * what it wrote before stays: the header and the rows of the pairs before `k`.
   */
  lemma MergeAborts(mosiPath: string, misoPath: string, mosi: seq<string>, miso: seq<string>, delta: bool, k: nat)
    requires 1 <= k <= PairCount(mosi, miso)
    requires NoBlankLines(mosi) && NoBlankLines(miso)
    requires CleanUpTo(mosi, miso, k - 1) && !PairGood(mosi, miso, k)
    ensures MergeOutcome(mosiPath, misoPath, mosi, miso, delta)
         == Outcome(Header(mosiPath, misoPath, delta) + Rows(delta, mosi, miso, 1, k - 1),
                    Aborted(ErrorAt(mosi, miso, k)))
  {
    MergeFromAbort(delta, mosi, miso, 1, k);
  }

  /** If not every one of the first `n` pairs can be written, there is a first one that cannot. */
  lemma {:induction false} FirstBadPair(mosi: seq<string>, miso: seq<string>, n: nat) returns (k: nat)
    requires !CleanUpTo(mosi, miso, n)
    ensures 1 <= k <= n && CleanUpTo(mosi, miso, k - 1) && !PairGood(mosi, miso, k)
  {
    var j :| 1 <= j <= n && !PairWritable(mosi, miso, j);
    if CleanUpTo(mosi, miso, n - 1) {
      assert j == n;
      k := n;
      if n >= 2 {
        assert PairWritable(mosi, miso, n - 1);
      }
    } else {
      k := FirstBadPair(mosi, miso, n - 1);
    }
  }

  /** A merge finishes exactly when every pair can be written; otherwise it ends with an error. */
  lemma MergeFinishedIff(mosiPath: string, misoPath: string, mosi: seq<string>, miso: seq<string>, delta: bool)
    requires NoBlankLines(mosi) && NoBlankLines(miso)
    ensures MergeOutcome(mosiPath, misoPath, mosi, miso, delta).status == Finished
        <==> CleanUpTo(mosi, miso, PairCount(mosi, miso))
  {
    if CleanUpTo(mosi, miso, PairCount(mosi, miso)) {
      MergeCompletes(mosiPath, misoPath, mosi, miso, delta);
    } else {
      var k := FirstBadPair(mosi, miso, PairCount(mosi, miso));
      MergeAborts(mosiPath, misoPath, mosi, miso, delta, k);
    }
  }

  /** Three chunks put before `rest` leave each chunk of `rest` three places later. */
  lemma TripleBefore(first: seq<string>, rest: seq<string>, j: nat)
    requires |first| == 3 && j + 3 <= |rest|
    ensures (first + rest)[j + 3..j + 6] == rest[j..j + 3]
  {
  }

  lemma TripleFirst(first: seq<string>, rest: seq<string>)
    requires |first| == 3
    ensures (first + rest)[..3] == first
  {
  }

  lemma TripleAfterHeader(header: seq<string>, rows: seq<string>, j: nat)
    requires |header| == 5 && j + 3 <= |rows|
    ensures (header + rows)[j + 5..j + 8] == rows[j..j + 3]
  {
  }

  /** A table of three-chunk groups concatenates to three chunks per group. */
  lemma {:induction false} ConcatLength(f: nat -> seq<string>, lo: nat, hi: nat)
    requires lo <= hi + 1
    requires forall k :: lo <= k <= hi ==> |f(k)| == 3
    ensures |Concat(f, lo, hi)| == 3 * (hi + 1 - lo)
    decreases hi + 1 - lo
  {
    if lo <= hi {
      ConcatLength(f, lo + 1, hi);
    }
  }

  /** In a concatenated table of three-chunk groups, group `k` is the three chunks starting at `3 * (k - lo)`. */
  lemma {:induction false} ConcatSliceAt(f: nat -> seq<string>, lo: nat, hi: nat, k: nat)
    requires lo <= k <= hi
    requires forall j :: lo <= j <= hi ==> |f(j)| == 3
    ensures 3 * (k - lo) + 3 <= |Concat(f, lo, hi)|
    ensures Concat(f, lo, hi)[3 * (k - lo)..3 * (k - lo) + 3] == f(k)
    decreases k - lo
  {
    ConcatLength(f, lo + 1, hi);
    if k == lo {
      TripleFirst(f(lo), Concat(f, lo + 1, hi));
    } else {
      ConcatSliceAt(f, lo + 1, hi, k);
      TripleBefore(f(lo), Concat(f, lo + 1, hi), 3 * (k - lo - 1));
    }
  }

  /** Every pair of a clean prefix has its three chunks. */
  lemma ChunksOfClean(delta: bool, mosi: seq<string>, miso: seq<string>, n: nat)
    requires CleanUpTo(mosi, miso, n)
    ensures forall k :: 1 <= k <= n ==> Chunks(delta, mosi, miso)(k) == PairRows(delta, mosi, miso, k)
    ensures forall k :: 1 <= k <= n ==> |Chunks(delta, mosi, miso)(k)| == 3
  {
    forall k | 1 <= k <= n
      ensures Chunks(delta, mosi, miso)(k) == PairRows(delta, mosi, miso, k)
      ensures |Chunks(delta, mosi, miso)(k)| == 3
    {
      CleanUpToAt(mosi, miso, n, k);
    }
  }

  /** Five header chunks followed by the groups 1 to `n` of a table of three-chunk groups: group `k` at `5 + 3 * (k - 1)`. */
  lemma ConcatLayout(header: seq<string>, f: nat -> seq<string>, n: nat)
    requires |header| == 5
    requires forall k :: 1 <= k <= n ==> |f(k)| == 3
    ensures var w := header + Concat(f, 1, n);
      |w| == 5 + 3 * n && w[..5] == header
      && forall k :: 1 <= k <= n ==> w[5 + 3 * (k - 1)..5 + 3 * k] == f(k)
  {
    var rows := Concat(f, 1, n);
    ConcatLength(f, 1, n);
    forall k | 1 <= k <= n
      ensures (header + rows)[5 + 3 * (k - 1)..5 + 3 * k] == f(k)
    {
      ConcatSliceAt(f, 1, n, k);
      TripleAfterHeader(header, rows, 3 * (k - 1));
    }
  }

  /** Five header chunks followed by the rows of lines 1 to `n`: three chunks per pair, pair `k` at `5 + 3 * (k - 1)`. */
  lemma LayoutOfRows(header: seq<string>, delta: bool, mosi: seq<string>, miso: seq<string>, n: nat)
    requires |header| == 5 && CleanUpTo(mosi, miso, n)
    ensures var w := header + Rows(delta, mosi, miso, 1, n);
      |w| == 5 + 3 * n && w[..5] == header
      && forall k :: 1 <= k <= n ==> w[5 + 3 * (k - 1)..5 + 3 * k] == PairRows(delta, mosi, miso, k)
  {
    ChunksOfClean(delta, mosi, miso, n);
    ConcatLayout(header, Chunks(delta, mosi, miso), n);
  }

  /**
   * The report of a merge that finishes: the five header chunks, then for
   * each pair `k` its MOSI row, its MISO row and a blank line, with the
   * value column of each row taken from the row's own export only; in all
   * 5 + 3 * (pair count) chunks.
   */
  lemma MergeLayout(mosiPath: string, misoPath: string, mosi: seq<string>, miso: seq<string>, delta: bool)
    requires NoBlankLines(mosi) && NoBlankLines(miso)
    requires CleanUpTo(mosi, miso, PairCount(mosi, miso))
    ensures var o := MergeOutcome(mosiPath, misoPath, mosi, miso, delta);
      o.status == Finished
      && |o.written| == 5 + 3 * PairCount(mosi, miso)
      && o.written[..5] == Header(mosiPath, misoPath, delta)
      && forall k :: 1 <= k <= PairCount(mosi, miso) ==>
           o.written[5 + 3 * (k - 1)..5 + 3 * k] == PairRows(delta, mosi, miso, k)
  {
    MergeCompletes(mosiPath, misoPath, mosi, miso, delta);
    LayoutOfRows(Header(mosiPath, misoPath, delta), delta, mosi, miso, PairCount(mosi, miso));
  }

  /**
   * The report of a merge that aborts at pair `k`: the error of that pair,
   * and what stays written is the header and the complete rows of the
   * `k - 1` pairs before it, nothing of pair `k` itself.
   */
  lemma MergeAbortLayout(mosiPath: string, misoPath: string, mosi: seq<string>, miso: seq<string>, delta: bool, k: nat)
    requires 1 <= k <= PairCount(mosi, miso)
    requires NoBlankLines(mosi) && NoBlankLines(miso)
    requires CleanUpTo(mosi, miso, k - 1) && !PairGood(mosi, miso, k)
    ensures var o := MergeOutcome(mosiPath, misoPath, mosi, miso, delta);
      o.status == Aborted(ErrorAt(mosi, miso, k))
      && |o.written| == 5 + 3 * (k - 1)
      && o.written[..5] == Header(mosiPath, misoPath, delta)
      && forall j :: 1 <= j < k ==> o.written[5 + 3 * (j - 1)..5 + 3 * j] == PairRows(delta, mosi, miso, j)
  {
    MergeAborts(mosiPath, misoPath, mosi, miso, delta, k);
    LayoutOfRows(Header(mosiPath, misoPath, delta), delta, mosi, miso, k - 1);
  }

  /** The three chunks of pair `k`, one by one, from its three-chunk slice. */
  lemma PairChunks(w: seq<string>, k: nat, rows: seq<string>)
    requires 1 <= k && 5 + 3 * k <= |w| && w[5 + 3 * (k - 1)..5 + 3 * k] == rows
    ensures |rows| == 3 && w[3 * k + 2] == rows[0] && w[3 * k + 3] == rows[1] && w[3 * k + 4] == rows[2]
  {
    assert w[3 * k + 2] == w[5 + 3 * (k - 1)..5 + 3 * k][0];
    assert w[3 * k + 3] == w[5 + 3 * (k - 1)..5 + 3 * k][1];
    assert w[3 * k + 4] == w[5 + 3 * (k - 1)..5 + 3 * k][2];
  }

  /**
   * Absolute mode: every pair of a finished merge writes the MOSI record
   * with its own truncated timestamp, then the MISO record with its own,
   * then a blank line.
   */
  lemma AbsoluteReport(mosiPath: string, misoPath: string, mosi: seq<string>, miso: seq<string>)
    requires NoBlankLines(mosi) && NoBlankLines(miso)
    requires CleanUpTo(mosi, miso, PairCount(mosi, miso))
    ensures var o := MergeOutcome(mosiPath, misoPath, mosi, miso, false);
      o.status == Finished && |o.written| == 5 + 3 * PairCount(mosi, miso)
      && forall k :: 1 <= k <= PairCount(mosi, miso) ==>
           Parses(mosi, k) && Parses(miso, k)
           && o.written[3 * k + 2] == RecordLine(RecordAt(mosi, k), Mosi, RecordAt(mosi, k).timestamp)
           && o.written[3 * k + 3] == RecordLine(RecordAt(miso, k), Miso, RecordAt(miso, k).timestamp)
           && o.written[3 * k + 4] == "\n"
  {
    var o := MergeOutcome(mosiPath, misoPath, mosi, miso, false);
    MergeLayout(mosiPath, misoPath, mosi, miso, false);
    forall k | 1 <= k <= PairCount(mosi, miso)
      ensures Parses(mosi, k) && Parses(miso, k)
      ensures o.written[3 * k + 2] == RecordLine(RecordAt(mosi, k), Mosi, RecordAt(mosi, k).timestamp)
      ensures o.written[3 * k + 3] == RecordLine(RecordAt(miso, k), Miso, RecordAt(miso, k).timestamp)
      ensures o.written[3 * k + 4] == "\n"
    {
      CleanUpToAt(mosi, miso, PairCount(mosi, miso), k);
      PairChunks(o.written, k, PairRows(false, mosi, miso, k));
    }
  }

  /**
   * `row` is the delta-mode row of data line `k` of `lines`: the record with
   * 0 when its id is 0, and otherwise with its timestamp minus that of the
   * previous data line of the same export (the difference may be negative);
   * a non-zero id is never on the first data line.
   */
  predicate DeltaRowShows(row: string, lines: seq<string>, k: nat, stream: Stream) {
    1 <= k && Parses(lines, k)
    && (k == 1 ==> RecordAt(lines, k).transferId == 0)
    && (k >= 2 ==> Parses(lines, k - 1))
    && var r := RecordAt(lines, k);
       row == RecordLine(r, stream, if r.transferId == 0 then 0 else r.timestamp - RecordAt(lines, k - 1).timestamp)
  }

  /** The chunks of pair `k` of a delta-mode report: the MOSI row, the MISO row, then a blank line. */
  predicate DeltaRowsAt(w: seq<string>, mosi: seq<string>, miso: seq<string>, k: nat) {
    1 <= k && 3 * k + 4 < |w|
    && DeltaRowShows(w[3 * k + 2], mosi, k, Mosi)
    && DeltaRowShows(w[3 * k + 3], miso, k, Miso)
    && w[3 * k + 4] == "\n"
  }

  /** Delta mode: every pair of a finished merge is written as `DeltaRowsAt` says. */
  lemma DeltaReport(mosiPath: string, misoPath: string, mosi: seq<string>, miso: seq<string>)
    requires NoBlankLines(mosi) && NoBlankLines(miso)
    requires CleanUpTo(mosi, miso, PairCount(mosi, miso))
    ensures var o := MergeOutcome(mosiPath, misoPath, mosi, miso, true);
      o.status == Finished && |o.written| == 5 + 3 * PairCount(mosi, miso)
      && forall k :: 1 <= k <= PairCount(mosi, miso) ==>
           DeltaRowsAt(o.written, mosi, miso, k)
  {
    var o := MergeOutcome(mosiPath, misoPath, mosi, miso, true);
    MergeLayout(mosiPath, misoPath, mosi, miso, true);
    forall k | 1 <= k <= PairCount(mosi, miso)
      ensures DeltaRowsAt(o.written, mosi, miso, k)
    {
      CleanUpToAt(mosi, miso, PairCount(mosi, miso), k);
      CleanUpToLast(mosi, miso, k);
      PairChunks(o.written, k, PairRows(true, mosi, miso, k));
    }
  }

  /**
   * Exports whose data lines all parse, and whose first data lines both
   * carry id 0, always merge to the end: one pair per data line of the
   * shorter export.
   */
  lemma ParsedExportsFinish(mosiPath: string, misoPath: string, mosi: seq<string>, miso: seq<string>, delta: bool)
    requires NoBlankLines(mosi) && NoBlankLines(miso)
    requires forall k :: 1 <= k <= PairCount(mosi, miso) ==> Parses(mosi, k) && Parses(miso, k)
    requires PairCount(mosi, miso) >= 1 ==> RecordAt(mosi, 1).transferId == 0 && RecordAt(miso, 1).transferId == 0
    ensures var o := MergeOutcome(mosiPath, misoPath, mosi, miso, delta);
      o.status == Finished && |o.written| == 5 + 3 * PairCount(mosi, miso)
  {
    assert CleanUpTo(mosi, miso, PairCount(mosi, miso));
    MergeLayout(mosiPath, misoPath, mosi, miso, delta);
  }

  /**
   * A first data line whose id is not 0 ends the merge before anything but
   * the header is written, in either mode: its delta would read a last
   * timestamp that was never set.
   */
  lemma NonZeroFirstIdAborts(mosiPath: string, misoPath: string, mosi: seq<string>, miso: seq<string>, delta: bool)
    requires NoBlankLines(mosi) && NoBlankLines(miso) && PairCount(mosi, miso) >= 1
    requires Parses(mosi, 1) && Parses(miso, 1)
    requires RecordAt(mosi, 1).transferId != 0
    ensures MergeOutcome(mosiPath, misoPath, mosi, miso, delta)
         == Outcome(Header(mosiPath, misoPath, delta), Aborted(UnboundTimestamp(Mosi)))
  {
    MergeAborts(mosiPath, misoPath, mosi, miso, delta, 1);
  }

  /** The pair of lines the loop sees at line `k`, or `None` where it stops. */
  function LinePair(mosi: seq<string>, miso: seq<string>, k: nat): Option<(string, string)> {
    if |ReadLine(mosi, k)| == 0 || |ReadLine(miso, k)| == 0 then None
    else Some((ReadLine(mosi, k), ReadLine(miso, k)))
  }

  /** The merge from line `i` depends on nothing but the line pairs it sees from `i` on. */
  lemma {:induction false} MergeFromSeesOnlyPairs(delta: bool, mosi: seq<string>, miso: seq<string>,
                                                  mosi': seq<string>, miso': seq<string>, i: nat,
                                                  lastMosi: Option<int>, lastMiso: Option<int>)
    requires forall k :: i <= k ==> LinePair(mosi, miso, k) == LinePair(mosi', miso', k)
    ensures MergeFrom(delta, mosi, miso, i, lastMosi, lastMiso) == MergeFrom(delta, mosi', miso', i, lastMosi, lastMiso)
    decreases |mosi| - i
  {
    assert LinePair(mosi, miso, i) == LinePair(mosi', miso', i);
    if LinePair(mosi, miso, i).Some? {
      assert i < |mosi| && i < |mosi'| && mosi[i] == mosi'[i] && ReadLine(miso, i) == ReadLine(miso', i);
      var step := PairStep(delta, mosi[i], ReadLine(miso, i), lastMosi, lastMiso);
      assert MergeFrom(delta, mosi, miso, i, lastMosi, lastMiso) == TurnFrom(delta, mosi, miso, i, lastMosi, lastMiso);
      assert MergeFrom(delta, mosi', miso', i, lastMosi, lastMiso) == TurnFrom(delta, mosi', miso', i, lastMosi, lastMiso);
      if step.Emit? {
        MergeFromSeesOnlyPairs(delta, mosi, miso, mosi', miso', i + 1, Some(step.mosiTimestamp), Some(step.misoTimestamp));
      }
    }
  }

  /** The header line of either export is read and dropped without being looked at. */
  lemma HeaderLineIgnored(mosiPath: string, misoPath: string, mosi: seq<string>, miso: seq<string>, delta: bool,
                          mosiHeader: string, misoHeader: string)
    requires |mosi| > 0 && |miso| > 0
    ensures MergeOutcome(mosiPath, misoPath, mosi[0 := mosiHeader], miso[0 := misoHeader], delta)
         == MergeOutcome(mosiPath, misoPath, mosi, miso, delta)
  {
    var mosi', miso' := mosi[0 := mosiHeader], miso[0 := misoHeader];
    forall k | 1 <= k
      ensures LinePair(mosi, miso, k) == LinePair(mosi', miso', k)
    {
      assert ReadLine(mosi, k) == ReadLine(mosi', k) && ReadLine(miso, k) == ReadLine(miso', k);
    }
    MergeFromSeesOnlyPairs(delta, mosi, miso, mosi', miso', 1, None, None);
  }

  /** Exports of different lengths are merged as if the longer were cut to the length of the shorter. */
  lemma LongerExportTruncated(mosiPath: string, misoPath: string, mosi: seq<string>, miso: seq<string>, delta: bool)
    ensures var shorter := if |mosi| < |miso| then |mosi| else |miso|;
      MergeOutcome(mosiPath, misoPath, mosi[..shorter], miso[..shorter], delta)
      == MergeOutcome(mosiPath, misoPath, mosi, miso, delta)
  {
    var shorter := if |mosi| < |miso| then |mosi| else |miso|;
    var mosi', miso' := mosi[..shorter], miso[..shorter];
    forall k | 1 <= k
      ensures LinePair(mosi, miso, k) == LinePair(mosi', miso', k)
    {
      if k < shorter {
        assert ReadLine(mosi, k) == ReadLine(mosi', k) && ReadLine(miso, k) == ReadLine(miso', k);
      }
    }
    MergeFromSeesOnlyPairs(delta, mosi, miso, mosi', miso', 1, None, None);
  }

  /**
   * Delta mode and absolute mode stop at the same pair for the same reason
   * and write the same number of chunks: the mode only changes the value
   * column.
   */
  lemma {:induction false} ModesAgree(mosi: seq<string>, miso: seq<string>, i: nat,
                                      lastMosi: Option<int>, lastMiso: Option<int>)
    ensures var d, a := MergeFrom(true, mosi, miso, i, lastMosi, lastMiso),
                        MergeFrom(false, mosi, miso, i, lastMosi, lastMiso);
      d.status == a.status && |d.written| == |a.written|
    decreases |mosi| - i
  {
    if |ReadLine(mosi, i)| > 0 && |ReadLine(miso, i)| > 0 {
      var d := PairStep(true, mosi[i], ReadLine(miso, i), lastMosi, lastMiso);
      var a := PairStep(false, mosi[i], ReadLine(miso, i), lastMosi, lastMiso);
      assert d.Stop? == a.Stop?;
      if d.Emit? {
        assert d.mosiTimestamp == a.mosiTimestamp && d.misoTimestamp == a.misoTimestamp;
        assert |d.rows| == |a.rows| == 3;
        ModesAgree(mosi, miso, i + 1, Some(d.mosiTimestamp), Some(d.misoTimestamp));
      } else {
        assert d.error == a.error;
      }
    }
  }
}
