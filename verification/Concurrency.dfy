/** Reading a log that grows, and peak concurrency from its starts and ends:
    scripts/verify-agents-execution-matrix.ts. */
module Concurrency {
  import opened Ordering
  import opened Framing

  /** The kind of a log record, as far as the count is concerned. */
  datatype Kind = ChildStart | ChildFinish | ChildAbort | OtherKind

  ghost function Effect(kind: Kind): int {
    match kind
    case ChildStart => 1
    case ChildFinish => -1
    case ChildAbort => -1
    case OtherKind => 0
  }

  /** Starts minus ends among the records from `i` up to (not including) `j`. */
  ghost function Window(records: seq<Kind>, i: nat, j: nat): int
    requires i <= j <= |records|
  {
    if i == j then 0 else Window(records, i, j - 1) + Effect(records[j - 1])
  }

  lemma {:induction false} WindowSplits(records: seq<Kind>, i: nat, k: nat, j: nat)
    requires i <= k <= j <= |records|
    ensures Window(records, i, j) == Window(records, i, k) + Window(records, k, j)
  {
    if k < j { WindowSplits(records, i, k, j - 1); }
  }

  /** `m` is the largest sum of a window that ends at `j`. */
  ghost predicate LargestEndingAt(records: seq<Kind>, j: nat, m: int)
    requires j <= |records|
  {
    && (forall i | 0 <= i <= j :: Window(records, i, j) <= m)
    && (exists i :: 0 <= i <= j && Window(records, i, j) == m)
  }

  /** `m` is the largest sum of any window of the first `n` records. */
  ghost predicate LargestWindow(records: seq<Kind>, n: nat, m: int)
    requires n <= |records|
  {
    && (forall i, j | 0 <= i <= j <= n :: Window(records, i, j) <= m)
    && (exists i, j :: 0 <= i <= j <= n && Window(records, i, j) == m)
  }

  lemma EndingStep(records: seq<Kind>, j: nat, m: int)
    requires j < |records| && LargestEndingAt(records, j, m)
    ensures
      var next := m + Effect(records[j]);
      LargestEndingAt(records, j + 1, if next < 0 then 0 else next)
  {
    var next := m + Effect(records[j]);
    var grown := if next < 0 then 0 else next;
    var k := j + 1;
    forall i | 0 <= i <= k ensures Window(records, i, k) <= grown {
      if i <= j { assert Window(records, i, k) == Window(records, i, j) + Effect(records[j]); }
    }
    if next < 0 {
      assert Window(records, k, k) == grown;
    } else {
      var i :| 0 <= i <= j && Window(records, i, j) == m;
      assert Window(records, i, k) == grown;
    }
  }

  /** The clamped walk finds the largest sum over all windows of the log. */
  method PeakChildConcurrency(records: seq<Kind>) returns (peak: nat)
    ensures LargestWindow(records, |records|, peak)
  {
    var active := 0;
    peak := 0;
    assert Window(records, 0, 0) == 0;
    for n := 0 to |records|
      invariant 0 <= active <= peak
      invariant LargestEndingAt(records, n, active)
      invariant LargestWindow(records, n, peak)
    {
      EndingStep(records, n, active);
      match records[n] {
        case ChildStart =>
          active := active + 1;
          peak := if active > peak then active else peak;
        case ChildFinish =>
          active := if active > 0 then active - 1 else 0;
        case ChildAbort =>
          active := if active > 0 then active - 1 else 0;
        case OtherKind =>
      }
    }
  }

  /** No prefix has more ends than starts: the log is complete from its beginning. */
  ghost predicate WellStarted(records: seq<Kind>) {
    forall n | 0 <= n <= |records| :: Window(records, 0, n) >= 0
  }

  /** `m` is the largest number of children alive after some record. */
  ghost predicate MostAlive(records: seq<Kind>, m: int) {
    && (forall n | 0 <= n <= |records| :: Window(records, 0, n) <= m)
    && (exists n :: 0 <= n <= |records| && Window(records, 0, n) == m)
  }

  /** For a log that is complete from its beginning, the peak is the true maximum of live children. */
  lemma PeakIsMostAlive(records: seq<Kind>, peak: int)
    requires WellStarted(records) && LargestWindow(records, |records|, peak)
    ensures MostAlive(records, peak)
  {
    var i, j :| 0 <= i <= j <= |records| && Window(records, i, j) == peak;
    WindowSplits(records, 0, i, j);
    assert Window(records, 0, i) >= 0;
    assert Window(records, 0, j) <= peak;
  }

  /** For a log joined while `alive` children were running, the true maximum lies between the peak and the peak plus
      those children. */
  lemma LateLogUnderReports(records: seq<Kind>, peak: int, alive: nat)
    requires LargestWindow(records, |records|, peak)
    requires forall n | 0 <= n <= |records| :: alive + Window(records, 0, n) >= 0
    ensures forall n | 0 <= n <= |records| :: alive + Window(records, 0, n) <= alive + peak
    ensures exists n :: 0 <= n <= |records| && alive + Window(records, 0, n) >= peak
  {
    var i, j :| 0 <= i <= j <= |records| && Window(records, i, j) == peak;
    WindowSplits(records, 0, i, j);
    assert alive + Window(records, 0, i) >= 0;
    assert alive + Window(records, 0, j) >= peak;
  }

  /** And the peak is exact exactly when, at or before some point with the most children, none was alive. */
  lemma LateLogIsExact(records: seq<Kind>, peak: int, most: int, alive: nat)
    requires LargestWindow(records, |records|, peak) && MostAlive(records, most)
    requires forall n | 0 <= n <= |records| :: alive + Window(records, 0, n) >= 0
    ensures peak <= alive + most
    ensures peak == alive + most <==>
              exists i, j :: && 0 <= i <= j <= |records|
                             && alive + Window(records, 0, i) == 0 && Window(records, 0, j) == most
  {
    var i, j :| 0 <= i <= j <= |records| && Window(records, i, j) == peak;
    WindowSplits(records, 0, i, j);
    assert alive + Window(records, 0, i) >= 0 && Window(records, 0, j) <= most;
    forall i, j | 0 <= i <= j <= |records| && alive + Window(records, 0, i) == 0 && Window(records, 0, j) == most
      ensures Window(records, i, j) == alive + most
    {
      WindowSplits(records, 0, i, j);
    }
  }

  /** A log of one start, joined while a child was alive: two were alive at once, but the peak is one. */
  lemma LateLogMissesOne(peak: int)
    requires LargestWindow([ChildStart], 1, peak)
    ensures peak == 1 && MostAlive([ChildStart], 1) && peak < 1 + 1
  {
    var records := [ChildStart];
    assert Window(records, 0, 0) == 0 && Window(records, 0, 1) == 1 && Window(records, 1, 1) == 0;
  }

  // ---------- reading a log while it is written ----------

  /** The records of the lines that are not blank; none if one of those is malformed. */
  function ParseLines<Record>(lines: seq<string>, parse: string -> Option<Record>, blank: string -> bool):
    Option<seq<Record>>
  {
    if lines == [] then Some([])
    else if blank(lines[0]) then ParseLines(lines[1..], parse, blank)
    else
      match (parse(lines[0]), ParseLines(lines[1..], parse, blank))
      case (Some(record), Some(records)) => Some([record] + records)
      case _ => None
  }

  /** What follows the last newline is still being written and is left alone. */
  function ParseCompleteLogRecords<Record>(contents: string, parse: string -> Option<Record>, blank: string -> bool):
    Option<seq<Record>>
  {
    ParseLines(Frame(contents).lines, parse, blank)
  }

  lemma {:induction false} ParseAppend<Record>(a: seq<string>, b: seq<string>, parse: string -> Option<Record>,
                                               blank: string -> bool)
    ensures ParseLines(a + b, parse, blank).Some? <==>
              ParseLines(a, parse, blank).Some? && ParseLines(b, parse, blank).Some?
    ensures ParseLines(a + b, parse, blank).Some? ==>
              ParseLines(a + b, parse, blank).value ==
                ParseLines(a, parse, blank).value + ParseLines(b, parse, blank).value
  {
    if a == [] {
      assert a + b == b;
    } else {
      assert (a + b)[0] == a[0] && (a + b)[1..] == a[1..] + b;
      ParseAppend(a[1..], b, parse, blank);
    }
  }

  ghost function NonBlank(lines: seq<string>, blank: string -> bool): seq<string> {
    if lines == [] then []
    else (if blank(lines[0]) then [] else [lines[0]]) + NonBlank(lines[1..], blank)
  }

  lemma {:induction false} ParsedLines<Record>(lines: seq<string>, parse: string -> Option<Record>,
                                               blank: string -> bool)
    ensures
      var r := ParseLines(lines, parse, blank);
      && (r.Some? <==> forall line | line in lines :: blank(line) || parse(line).Some?)
      && (r.Some? ==>
            && |r.value| == |NonBlank(lines, blank)|
            && forall i | 0 <= i < |r.value| :: parse(NonBlank(lines, blank)[i]) == Some(r.value[i]))
  {
    if lines != [] {
      assert lines == [lines[0]] + lines[1..];
      ParsedLines(lines[1..], parse, blank);
    }
  }

  /** The records are those of the non-blank complete lines, in order; without a malformed one among them there is
      always an answer. */
  lemma RecordsOfCompleteLines<Record>(lines: seq<string>, rest: string, parse: string -> Option<Record>,
                                       blank: string -> bool)
    requires '\n' !in rest && forall line | line in lines :: '\n' !in line
    ensures
      var r := ParseCompleteLogRecords(Unframe(lines, rest), parse, blank);
      && (r.Some? <==> forall line | line in lines :: blank(line) || parse(line).Some?)
      && (r.Some? ==>
            && |r.value| == |NonBlank(lines, blank)|
            && forall i | 0 <= i < |r.value| :: parse(NonBlank(lines, blank)[i]) == Some(r.value[i]))
  {
    FrameIsUnique(lines, rest);
    ParsedLines(lines, parse, blank);
  }

  /** Reading again after more was written only adds records, and a half-written line becomes exactly one reading of the
      line it grows into. */
  lemma GrowingLog<Record>(written: string, more: string, parse: string -> Option<Record>, blank: string -> bool)
    requires ParseCompleteLogRecords(written + more, parse, blank).Some?
    ensures ParseCompleteLogRecords(written, parse, blank).Some?
    ensures ParseCompleteLogRecords(Frame(written).rest + more, parse, blank).Some?
    ensures ParseCompleteLogRecords(written + more, parse, blank).value ==
              ParseCompleteLogRecords(written, parse, blank).value +
              ParseCompleteLogRecords(Frame(written).rest + more, parse, blank).value
  {
    FrameAppend(written, more);
    ParseAppend(Frame(written).lines, Frame(Frame(written).rest + more).lines, parse, blank);
  }
}
