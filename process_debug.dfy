/**
 * The trace converter debug/process_debug.py: it reads the profiling dump line by line,
 * draws one lane per "THREAD" header, two boxes per scheduled task and a legend with the
 * totals and averages. The HTML is modelled as the sequence of elements the script writes,
 * one per fo.write call except Head, which stands for the two writes of lines 13-14; the
 * lines are given as the file iteration yields them.
 */
module ProcessDebug {
  import opened Wrappers
  import opened Text

  /** Pixels per millisecond (line 5). */
  const MS_PX_MULT: real := 1000.0
  /** The starting time_offset (line 6). */
  const INITIAL_TIME_OFFSET: real := 100000000.0
  /** The legend's stack labels (lines 46-47). */
  const NUM_STACK_LABELS: nat := 8

  /** The eight values of a data line after lines 25-26. */
  datatype Record = Record(ss: real, se: real, ee: real, rdtscpS: real, rdtscpE: real,
                           stack: int, previous: int, current: int)

  /** How the loop body treats a line (lines 19-26). */
  datatype Line = ThreadHeader | Separator | Data(record: Record) | Malformed

  /** The exceptions that abort the script. */
  datatype Error = ValueError | ZeroDivisionError

  /** One fo.write of the script. */
  datatype Element =
    | Head                                                     // lines 13-14
    | LaneOpen                                                 // lines 16, 21
    | LaneClose                                                // lines 20, 38
    | SchedBox(left: real, width: real)                        // line 35
    | ExecBox(stack: int, left: real, width: real, previous: int, current: int)  // line 36
    | LegendOpen                                               // line 40
    | TimeStats(totalSched: real, avgSched: real, totalExec: real, avgExec: real, schedPerExec: real)  // line 42
    | Break                                                    // line 43
    | RdtscpStats(totalS: real, avgS: real, totalE: real, avgE: real, sPerE: real)  // line 44
    | StackLabel(n: nat)                                       // line 47
    | LegendClose                                              // line 49
    | Tail                                                     // line 51

  /**
   * The longest digit string the model reads exactly: every number of at most 15 digits is
   * below 10^15 < 2^53, so it is a double and float() reads it without rounding.
   */
  const EXACT_DIGITS: nat := 15

  /**
   * Python's float() on a stripped field: exact on a string of at most 15 decimal digits, and
   * `parse` for every other spelling (longer digit strings, which float() may round to a
   * double, signs, points, exponents, and the rejected strings).
   */
  function ParseFloat(s: string, parse: string -> Option<real>): (r: Option<real>)
    ensures 0 < |s| <= EXACT_DIGITS && AllDigits(s) ==> r == Some(DigitsValue(s) as real)
  {
    if 0 < |s| <= EXACT_DIGITS && AllDigits(s) then Some(DigitsValue(s) as real) else parse(s)
  }

  /** Python's int() of a float: truncation toward zero. */
  function Trunc(x: real): (n: int)
    ensures 0.0 <= x ==> n as real <= x < n as real + 1.0
    ensures x < 0.0 ==> n as real - 1.0 < x <= n as real
  {
    if x >= 0.0 then x.Floor else -((-x).Floor)
  }

  /** Truncating a whole number gives it back. */
  lemma TruncWhole(n: int)
    ensures Trunc(n as real) == n
  {
  }

  /** [float(x.strip()) for x in parts]: every value, or None when one of them is rejected. */
  function ParseFields(parts: seq<string>, parse: string -> Option<real>): (r: Option<seq<real>>)
    ensures r.Some? ==> |r.value| == |parts|
  {
    if |parts| == 0 then Some([])
    else
      var first := ParseFloat(Strip(parts[0]), parse);
      var rest := ParseFields(parts[1..], parse);
      if first.None? then None
      else if rest.None? then None
      else Some([first.value] + rest.value)
  }

  /** The list comprehension succeeds exactly when every field parses, and holds their values. */
  lemma ParseFieldsMeaning(parts: seq<string>, parse: string -> Option<real>)
    ensures ParseFields(parts, parse).Some? <==> forall i :: 0 <= i < |parts| ==> ParseFloat(Strip(parts[i]), parse).Some?
    ensures ParseFields(parts, parse).Some? ==>
              forall i :: 0 <= i < |parts| ==> ParseFields(parts, parse).value[i] == ParseFloat(Strip(parts[i]), parse).value
  {
    ParseFieldsSome(parts, parse);
    if ParseFields(parts, parse).Some? {
      ParseFieldsValues(parts, parse);
    }
  }

  lemma {:induction false} ParseFieldsSome(parts: seq<string>, parse: string -> Option<real>)
    ensures ParseFields(parts, parse).Some? <==> forall i :: 0 <= i < |parts| ==> ParseFloat(Strip(parts[i]), parse).Some?
  {
    if |parts| > 0 {
      var tail := parts[1..];
      ParseFieldsSome(tail, parse);
      if ParseFloat(Strip(parts[0]), parse).Some? && ParseFields(tail, parse).None? {
        var j :| 0 <= j < |tail| && ParseFloat(Strip(tail[j]), parse).None?;
        assert parts[j + 1] == tail[j];
      } else if ParseFields(tail, parse).Some? {
        assert forall i :: 1 <= i < |parts| ==> parts[i] == tail[i - 1];
      }
    }
  }

  lemma {:induction false} ParseFieldsValues(parts: seq<string>, parse: string -> Option<real>)
    requires ParseFields(parts, parse).Some?
    ensures forall i :: 0 <= i < |parts| ==>
              ParseFloat(Strip(parts[i]), parse) == Some(ParseFields(parts, parse).value[i])
  {
    if |parts| > 0 {
      var tail := parts[1..];
      ParseFieldsCons(parts, parse);
      ParseFieldsValues(tail, parse);
      var r, rest := ParseFields(parts, parse).value, ParseFields(tail, parse).value;
      forall i | 1 <= i < |parts|
        ensures ParseFloat(Strip(parts[i]), parse) == Some(r[i])
      {
        assert parts[i] == tail[i - 1] && r[i] == rest[i - 1];
      }
    }
  }

  /** A successful parse is the first field's value followed by the parse of the rest. */
  lemma ParseFieldsCons(parts: seq<string>, parse: string -> Option<real>)
    requires |parts| > 0 && ParseFields(parts, parse).Some?
    ensures ParseFields(parts[1..], parse).Some? && ParseFloat(Strip(parts[0]), parse).Some?
    ensures ParseFields(parts, parse).value
            == [ParseFloat(Strip(parts[0]), parse).value] + ParseFields(parts[1..], parse).value
  {
  }

  /** The branch the loop body takes for a line, with the parsed record on a data line. */
  function Classify(line: string, parse: string -> Option<real>): Line
  {
    if StartsWith(line, "THREAD") then ThreadHeader
    else if Contains(line, "----") then Separator
    else
      var parts := Split(line, '|');
      var values := ParseFields(parts, parse);
      if |parts| != 8 || values.None? then Malformed
      else
        var v := values.value;
        Data(Record(v[0], v[1], v[2], v[3], v[4], Trunc(v[5]), Trunc(v[6]), Trunc(v[7])))
  }

  /** A line is rejected exactly when it is neither a header nor a separator and does not hold eight numbers. */
  lemma MalformedMeaning(line: string, parse: string -> Option<real>)
    ensures Classify(line, parse).Malformed?
            <==> !StartsWith(line, "THREAD") && !Contains(line, "----")
                 && (|Split(line, '|')| != 8
                     || exists i :: 0 <= i < 8 && ParseFloat(Strip(Split(line, '|')[i]), parse).None?)
  {
    ParseFieldsMeaning(Split(line, '|'), parse);
  }

  /** The script's variables between two lines. */
  datatype Acc = Acc(timeOffset: real, totalSched: real, totalExec: real, totalRdtscpS: real,
                     totalRdtscpE: real, nTasks: nat, out: seq<Element>)

  /** Before the first line (lines 5-16). */
  const INITIAL := Acc(INITIAL_TIME_OFFSET, 0.0, 0.0, 0.0, 0.0, 0, [Head, LaneOpen])

  /** Lines 27-36 for one record. */
  function Absorb(acc: Acc, r: Record): Acc
  {
    var offset := if r.ss < acc.timeOffset then r.ss else acc.timeOffset;
    var boxes := if r.ss != 0.0
                 then [SchedBox((r.ss - offset) * MS_PX_MULT, (r.se - r.ss) * MS_PX_MULT),
                       ExecBox(r.stack, (r.se - offset) * MS_PX_MULT, (r.ee - r.se) * MS_PX_MULT, r.previous, r.current)]
                 else [];
    Acc(offset, acc.totalSched + (r.se - r.ss), acc.totalExec + (r.ee - r.se),
        acc.totalRdtscpS + r.rdtscpS, acc.totalRdtscpE + r.rdtscpE,
        if r.ss != 0.0 then acc.nTasks + 1 else acc.nTasks, acc.out + boxes)
  }

  /** One pass of the loop body (lines 19-36), on the branch the line takes. */
  function Step(acc: Acc, kind: Line): Result<Acc, Error>
  {
    match kind
    case ThreadHeader => Ok(acc.(out := acc.out + [LaneClose, LaneOpen]))
    case Separator => Ok(acc)
    case Data(r) => Ok(Absorb(acc, r))
    case Malformed => Err(ValueError)
  }

  /** The loop body's choice of branch, as a function of the line. */
  function Classifier(parse: string -> Option<real>): string -> Line
  {
    line => Classify(line, parse)
  }

  /** The branch of every line of the file. */
  function Kinds(lines: seq<string>, parse: string -> Option<real>): (kinds: seq<Line>)
  {
    MapLines(lines, Classifier(parse))
  }

  /** f applied to every line, in order. */
  function MapLines(lines: seq<string>, f: string -> Line): (r: seq<Line>)
  {
    seq(|lines|, i requires 0 <= i < |lines| => f(lines[i]))
  }

  /** The variables after lines of the given kinds, or the exception that ended the loop. */
  function Scan(kinds: seq<Line>): Result<Acc, Error>
  {
    if |kinds| == 0 then Ok(INITIAL)
    else match Scan(kinds[..|kinds| - 1])
         case Err(e) => Err(e)
         case Ok(acc) => Step(acc, kinds[|kinds| - 1])
  }

  /** The eight stack labels stack-0 .. stack-7. */
  function Labels(): (l: seq<Element>)
    ensures |l| == NUM_STACK_LABELS && forall k :: 0 <= k < NUM_STACK_LABELS ==> l[k] == StackLabel(k)
  {
    seq(NUM_STACK_LABELS, k requires 0 <= k < NUM_STACK_LABELS => StackLabel(k))
  }

  /** Lines 42-44: the two statistics lines around a break, with the averages over n_tasks. */
  function Statistics(acc: Acc): (stats: seq<Element>)
    requires acc.nTasks != 0 && acc.totalExec != 0.0 && acc.totalRdtscpE != 0.0
    ensures |stats| == 3 && stats[0].TimeStats? && stats[1] == Break && stats[2].RdtscpStats?
  {
    var n := acc.nTasks as real;
    [TimeStats(acc.totalSched, acc.totalSched / n, acc.totalExec, acc.totalExec / n, acc.totalSched / acc.totalExec),
     Break,
     RdtscpStats(acc.totalRdtscpS, acc.totalRdtscpS / n, acc.totalRdtscpE, acc.totalRdtscpE / n,
                 acc.totalRdtscpS / acc.totalRdtscpE)]
  }

  /**
   * Lines 38-51: the last lane is closed and the legend written; its averages divide by
   * n_tasks, total_exec and total_rdtscp_e, so a zero in any of them aborts the script.
   */
  function Legend(acc: Acc): (r: Result<seq<Element>, Error>)
    ensures r.Err? <==> acc.nTasks == 0 || acc.totalExec == 0.0 || acc.totalRdtscpE == 0.0
    ensures r.Ok? ==> |r.value| == |acc.out| + 7 + NUM_STACK_LABELS && r.value[..|acc.out|] == acc.out
                      && r.value[|acc.out| + 5..|acc.out| + 5 + NUM_STACK_LABELS] == Labels()
                      && r.value[|r.value| - 2..] == [LegendClose, Tail]
  {
    if acc.nTasks == 0 || acc.totalExec == 0.0 || acc.totalRdtscpE == 0.0 then Err(ZeroDivisionError)
    else Ok(acc.out + [LaneClose] + LegendDiv(acc))
  }

  /** Lines 40-51: the legend div and the closing tags. */
  function LegendDiv(acc: Acc): (legend: seq<Element>)
    requires acc.nTasks != 0 && acc.totalExec != 0.0 && acc.totalRdtscpE != 0.0
    ensures LaneOpen !in legend && LaneClose !in legend
  {
    [LegendOpen] + Statistics(acc) + Labels() + [LegendClose, Tail]
  }

  /** The whole script: the elements written, or the exception it stops with. */
  function Convert(lines: seq<string>, parse: string -> Option<real>): Result<seq<Element>, Error>
  {
    match Scan(Kinds(lines, parse))
    case Err(e) => Err(e)
    case Ok(acc) => Legend(acc)
  }

  /** Once the loop has failed on a prefix, the whole run fails with the same exception. */
  lemma {:induction false} ScanErrSticks(kinds: seq<Line>, n: nat)
    requires n <= |kinds| && Scan(kinds[..n]).Err?
    ensures Scan(kinds) == Scan(kinds[..n])
    decreases |kinds| - n
  {
    if n < |kinds| {
      assert kinds[..n + 1][..n] == kinds[..n];
      ScanErrSticks(kinds, n + 1);
    } else {
      assert kinds[..n] == kinds;
    }
  }

  // ------------------------------------------------------------ what the loop computes

  /** The number of lane headers among the lines. */
  function Headers(kinds: seq<Line>): (n: nat)
    ensures n <= |kinds|
  {
    if |kinds| == 0 then 0
    else Headers(kinds[..|kinds| - 1]) + if kinds[|kinds| - 1].ThreadHeader? then 1 else 0
  }

  /** The records of the data lines, in file order. */
  function Records(kinds: seq<Line>): (rs: seq<Record>)
    ensures |rs| <= |kinds|
  {
    if |kinds| == 0 then []
    else
      var rs := Records(kinds[..|kinds| - 1]);
      match kinds[|kinds| - 1]
      case Data(r) => rs + [r]
      case _ => rs
  }

  /** Headers of consecutive stretches of lines add up. */
  lemma {:induction false} HeadersAppend(a: seq<Line>, b: seq<Line>)
    ensures Headers(a + b) == Headers(a) + Headers(b)
    decreases |b|
  {
    if |b| == 0 {
      assert a + b == a;
    } else {
      assert (a + b)[..|a + b| - 1] == a + b[..|b| - 1];
      HeadersAppend(a, b[..|b| - 1]);
    }
  }

  /** Records of consecutive stretches of lines follow each other. */
  lemma {:induction false} RecordsAppend(a: seq<Line>, b: seq<Line>)
    ensures Records(a + b) == Records(a) + Records(b)
    decreases |b|
  {
    if |b| == 0 {
      assert a + b == a;
    } else {
      assert (a + b)[..|a + b| - 1] == a + b[..|b| - 1];
      RecordsAppend(a, b[..|b| - 1]);
    }
  }

  /** How many records were scheduled at all (a non-zero sched start, line 33). */
  function Scheduled(rs: seq<Record>): (n: nat)
    ensures n <= |rs|
  {
    if |rs| == 0 then 0 else Scheduled(rs[..|rs| - 1]) + if rs[|rs| - 1].ss != 0.0 then 1 else 0
  }

  function Sum(rs: seq<Record>, f: Record -> real): real
  {
    if |rs| == 0 then 0.0 else Sum(rs[..|rs| - 1], f) + f(rs[|rs| - 1])
  }

  function SchedSpan(r: Record): real { r.se - r.ss }
  function ExecSpan(r: Record): real { r.ee - r.se }
  function RdtscpSched(r: Record): real { r.rdtscpS }
  function RdtscpExec(r: Record): real { r.rdtscpE }

  /** The loop runs to the end exactly when no line is malformed. */
  lemma {:induction false} ScanOkIff(kinds: seq<Line>)
    ensures Scan(kinds).Ok? <==> forall i :: 0 <= i < |kinds| ==> !kinds[i].Malformed?
  {
    if |kinds| > 0 {
      var prefix := kinds[..|kinds| - 1];
      ScanOkIff(prefix);
      assert forall i :: 0 <= i < |prefix| ==> prefix[i] == kinds[i];
    }
  }

  /**
   * Every lane that is opened is closed by the next header or by line 38: after the loop one
   * more lane is open than closed, one per header plus the first; besides the head the
   * output holds two boxes per scheduled record.
   */
  lemma {:induction false} ScanLanes(kinds: seq<Line>)
    requires Scan(kinds).Ok?
    ensures var acc := Scan(kinds).value;
            && multiset(acc.out)[LaneOpen] == Headers(kinds) + 1
            && multiset(acc.out)[LaneClose] == Headers(kinds)
            && |acc.out| == 2 + 2 * Headers(kinds) + 2 * acc.nTasks
            && acc.out[0] == Head
  {
    if |kinds| > 0 {
      var prefix := kinds[..|kinds| - 1];
      ScanLanes(prefix);
      StepLanes(Scan(prefix).value, kinds[|kinds| - 1]);
    }
  }

  /** One line of the dump: a header closes a lane and opens the next; a record adds its two boxes. */
  lemma StepLanes(acc: Acc, kind: Line)
    requires Step(acc, kind).Ok? && |acc.out| > 0
    ensures multiset(Step(acc, kind).value.out)[LaneOpen] == multiset(acc.out)[LaneOpen] + if kind.ThreadHeader? then 1 else 0
    ensures multiset(Step(acc, kind).value.out)[LaneClose] == multiset(acc.out)[LaneClose] + if kind.ThreadHeader? then 1 else 0
    ensures |Step(acc, kind).value.out| - 2 * Step(acc, kind).value.nTasks
            == |acc.out| - 2 * acc.nTasks + if kind.ThreadHeader? then 2 else 0
    ensures Step(acc, kind).value.out[0] == acc.out[0]
  {
    if kind.ThreadHeader? {
      assert multiset(acc.out + [LaneClose, LaneOpen]) == multiset(acc.out) + multiset{LaneClose, LaneOpen};
    } else if kind.Data? {
      var next := Absorb(acc, kind.record);
      assert next.out == acc.out + next.out[|acc.out|..];
      assert multiset(next.out) == multiset(acc.out) + multiset(next.out[|acc.out|..]);
    }
  }

  /** n_tasks and the four totals count and add up exactly the records read. */
  lemma {:induction false} ScanTotals(kinds: seq<Line>)
    requires Scan(kinds).Ok?
    ensures var acc, rs := Scan(kinds).value, Records(kinds);
            && acc.nTasks == Scheduled(rs)
            && acc.totalSched == Sum(rs, SchedSpan) && acc.totalExec == Sum(rs, ExecSpan)
            && acc.totalRdtscpS == Sum(rs, RdtscpSched) && acc.totalRdtscpE == Sum(rs, RdtscpExec)
  {
    if |kinds| > 0 {
      var prefix := kinds[..|kinds| - 1];
      ScanTotals(prefix);
      var rs := Records(kinds);
      if kinds[|kinds| - 1].Data? {
        assert rs[..|rs| - 1] == Records(prefix);
      }
    }
  }

  /** time_offset ends as the smallest sched start read, or its initial value when that is smaller. */
  lemma {:induction false} ScanOffset(kinds: seq<Line>)
    requires Scan(kinds).Ok?
    ensures Scan(kinds).value.timeOffset <= INITIAL_TIME_OFFSET
    ensures forall k :: 0 <= k < |Records(kinds)| ==> Scan(kinds).value.timeOffset <= Records(kinds)[k].ss
    ensures Scan(kinds).value.timeOffset == INITIAL_TIME_OFFSET
            || exists k :: 0 <= k < |Records(kinds)| && Records(kinds)[k].ss == Scan(kinds).value.timeOffset
  {
    if |kinds| > 0 {
      var prefix := kinds[..|kinds| - 1];
      ScanOffset(prefix);
      var before, acc, last := Records(prefix), Scan(prefix).value, kinds[|kinds| - 1];
      assert Scan(kinds) == Step(acc, last);
      if last.Data? {
        var r := last.record;
        var rs := before + [r];
        assert Records(kinds) == rs;
        assert Scan(kinds).value == Absorb(acc, r);
        var offset := Absorb(acc, r).timeOffset;
        assert offset <= acc.timeOffset && offset <= r.ss;
        forall k | 0 <= k < |rs|
          ensures offset <= rs[k].ss
        {
          if k < |before| {
            assert rs[k] == before[k];
          }
        }
        if offset != INITIAL_TIME_OFFSET {
          if offset == r.ss {
            assert Records(kinds)[|before|].ss == offset;
          } else {
            var k :| 0 <= k < |before| && before[k].ss == acc.timeOffset;
            assert Records(kinds)[k] == before[k];
          }
        }
      } else if last.Malformed? {
        assert false;
      } else {
        assert Records(kinds) == before;
      }
    }
  }

  /** No sched box starts left of the lane: its start is measured from an offset no later than it. */
  lemma {:induction false} ScanBoxesInLane(kinds: seq<Line>)
    requires Scan(kinds).Ok?
    ensures var out := Scan(kinds).value.out;
            forall i :: 0 <= i < |out| && out[i].SchedBox? ==> out[i].left >= 0.0
  {
    if |kinds| > 0 {
      ScanBoxesInLane(kinds[..|kinds| - 1]);
    }
  }

  /** Closing a lane before elements that are not lane divs adds one close and no open. */
  lemma CloseLane(front: seq<Element>, rest: seq<Element>)
    requires LaneOpen !in rest && LaneClose !in rest
    ensures multiset(front + [LaneClose] + rest)[LaneOpen] == multiset(front)[LaneOpen]
    ensures multiset(front + [LaneClose] + rest)[LaneClose] == multiset(front)[LaneClose] + 1
  {
    assert multiset(front + [LaneClose] + rest) == multiset(front) + multiset{LaneClose} + multiset(rest);
  }

  /** The legend closes the last lane and opens none. */
  lemma LegendLanes(acc: Acc)
    requires Legend(acc).Ok?
    ensures var out := Legend(acc).value;
            && multiset(out)[LaneOpen] == multiset(acc.out)[LaneOpen]
            && multiset(out)[LaneClose] == multiset(acc.out)[LaneClose] + 1
  {
    CloseLane(acc.out, LegendDiv(acc));
  }

  /** A converted dump has every lane div closed, and one lane per header plus the first. */
  lemma LanesBalanced(lines: seq<string>, parse: string -> Option<real>)
    requires Convert(lines, parse).Ok?
    ensures var out := Convert(lines, parse).value;
            multiset(out)[LaneOpen] == multiset(out)[LaneClose] == Headers(Kinds(lines, parse)) + 1
  {
    var kinds := Kinds(lines, parse);
    ScanLanes(kinds);
    LegendLanes(Scan(kinds).value);
  }

  /** process_debug (lines 1-54), with the file as its lines and `parse` as Python's float(). */
  method ProcessDebug(lines: seq<string>, parse: string -> Option<real>) returns (r: Result<seq<Element>, Error>)
    ensures r == Convert(lines, parse)
  {
    var scanned := ReadLines(lines, parse);
    if scanned.Err? {
      return Err(scanned.error);
    }
    r := WriteLegend(scanned.value);
  }

  /** Lines 5-36: the header, then the loop over the lines of the dump. */
  method ReadLines(lines: seq<string>, parse: string -> Option<real>) returns (r: Result<Acc, Error>)
    ensures r == Scan(Kinds(lines, parse))
  {
    var acc := INITIAL;
    var i := 0;
    while i < |lines|
      invariant i <= |lines| && Scan(Kinds(lines[..i], parse)) == Ok(acc)
    {
      var next := ReadLine(acc, lines[i], parse);
      var kinds := Kinds(lines[..i + 1], parse);
      assert kinds[..i] == Kinds(lines[..i], parse);
      if next.Err? {
        assert Kinds(lines, parse)[..i + 1] == kinds;
        ScanErrSticks(Kinds(lines, parse), i + 1);
        return next;
      }
      acc := next.value;
      i := i + 1;
    }
    assert lines[..i] == lines;
    r := Ok(acc);
  }

  /** The loop body of lines 19-36 for one line. */
  method ReadLine(acc: Acc, line: string, parse: string -> Option<real>) returns (r: Result<Acc, Error>)
    ensures r == Step(acc, Classify(line, parse))
  {
    if StartsWith(line, "THREAD") {
      r := Ok(acc.(out := acc.out + [LaneClose, LaneOpen]));
    } else if Contains(line, "----") {
      r := Ok(acc);
    } else {
      var parts := Split(line, '|');
      var values := ParseFields(parts, parse);
      if |parts| != 8 || values.None? {
        return Err(ValueError);
      }
      var v := values.value;
      var record := Record(v[0], v[1], v[2], v[3], v[4], Trunc(v[5]), Trunc(v[6]), Trunc(v[7]));
      var next := AddRecord(acc, record);
      r := Ok(next);
    }
  }

  /** Lines 27-36: the offset, the totals and the two boxes of one record. */
  method AddRecord(acc: Acc, record: Record) returns (next: Acc)
    ensures next == Absorb(acc, record)
  {
    var timeOffset, nTasks, out := acc.timeOffset, acc.nTasks, acc.out;
    var ss, se, ee := record.ss, record.se, record.ee;
    if ss < timeOffset {
      timeOffset := ss;
    }
    var totalSched := acc.totalSched + (se - ss);
    var totalExec := acc.totalExec + (ee - se);
    var totalRdtscpS := acc.totalRdtscpS + record.rdtscpS;
    var totalRdtscpE := acc.totalRdtscpE + record.rdtscpE;
    if ss != 0.0 {
      nTasks := nTasks + 1;
      out := out + [SchedBox((ss - timeOffset) * MS_PX_MULT, (se - ss) * MS_PX_MULT),
                    ExecBox(record.stack, (se - timeOffset) * MS_PX_MULT, (ee - se) * MS_PX_MULT,
                            record.previous, record.current)];
    }
    next := Acc(timeOffset, totalSched, totalExec, totalRdtscpS, totalRdtscpE, nTasks, out);
  }

  /** Lines 38-51: the last lane closed, the statistics, and the stack labels. */
  method WriteLegend(acc: Acc) returns (r: Result<seq<Element>, Error>)
    ensures r == Legend(acc)
  {
    var out := acc.out + [LaneClose];
    ghost var closed := out;
    out := out + [LegendOpen];
    if acc.nTasks == 0 || acc.totalExec == 0.0 || acc.totalRdtscpE == 0.0 {
      return Err(ZeroDivisionError);
    }
    var n := acc.nTasks as real;
    var time := TimeStats(acc.totalSched, acc.totalSched / n, acc.totalExec, acc.totalExec / n,
                          acc.totalSched / acc.totalExec);
    var rdtscp := RdtscpStats(acc.totalRdtscpS, acc.totalRdtscpS / n, acc.totalRdtscpE, acc.totalRdtscpE / n,
                              acc.totalRdtscpS / acc.totalRdtscpE);
    out := out + [time, Break, rdtscp];
    ghost var legendStart := out;
    assert legendStart == closed + ([LegendOpen] + Statistics(acc));
    for s := 0 to NUM_STACK_LABELS
      invariant out == legendStart + Labels()[..s]
    {
      out := out + [StackLabel(s)];
    }
    assert Labels()[..NUM_STACK_LABELS] == Labels();
    out := out + [LegendClose, Tail];
    assert out == closed + LegendDiv(acc);
    r := Ok(out);
  }
}
