/**
 * The profiling dump written by write_profiling (src/managers/TaskScheduling.cpp) read back by
 * the trace converter (debug/process_debug.py): every header line opens a lane, every
 * separator is skipped, and every item line comes back as a record holding the item's values.
 * The three times come back as whatever float() makes of the text the stream printed for them;
 * the five integers come back exactly while they are below 10^15: at most 15 digits, well
 * inside the range below 2^53 in which float() does not round.
 */
module DumpRoundTrip {
  import opened Wrappers
  import opened Text
  import opened Profiling
  import opened ProcessDebug

  /** A character of a printed number: digits, point, signs and the exponent mark. */
  predicate NumberChar(c: char)
  {
    IsDigit(c) || c == '.' || c == '-' || c == '+' || c == 'e'
  }

  /** A printed number: non-empty, number characters only, never two dashes in a row. */
  predicate NumberText(s: string)
  {
    |s| > 0 && (forall i :: 0 <= i < |s| ==> NumberChar(s[i])) && NoDoubleDash(s)
  }

  /** 10^15: the numbers printed with at most EXACT_DIGITS digits. */
  const EXACT_LIMIT: nat := 1_000_000_000_000_000

  /** The five integer fields of an item are below 10^15, so float() reads them without rounding. */
  predicate ExactItem(item: Item)
  {
    item.rdtscpSched < EXACT_LIMIT && item.rdtscpExec < EXACT_LIMIT && item.stack < EXACT_LIMIT
    && item.previous < EXACT_LIMIT && item.current < EXACT_LIMIT
  }

  /** Every item of a run is read without rounding. */
  predicate ExactItems(items: seq<Item>)
  {
    forall k :: 0 <= k < |items| ==> ExactItem(items[k])
  }

  /** Every item of every row is read without rounding. */
  predicate ExactRows(rows: seq<seq<Item>>)
  {
    forall t :: 0 <= t < |rows| ==> ExactItems(rows[t])
  }

  /** The stream prints every time as a number that float() accepts. */
  ghost predicate Readable(show: real -> string, parse: string -> Option<real>)
  {
    forall x :: NumberText(show(x)) && ParseFloat(show(x), parse).Some?
  }

  /** What float() makes of the text printed for x. */
  function Reading(x: real, show: real -> string, parse: string -> Option<real>): real
  {
    match ParseFloat(show(x), parse)
    case Some(v) => v
    case None => 0.0
  }

  /** The record the converter reads for an item. */
  function RecordOf(item: Item, show: real -> string, parse: string -> Option<real>): Record
  {
    Record(Reading(item.schedStart, show, parse), Reading(item.schedEnd, show, parse),
           Reading(item.execEnd, show, parse), item.rdtscpSched as real, item.rdtscpExec as real,
           item.stack, item.previous, item.current)
  }

  /** The branches the converter takes on the lines of a run of items. */
  function ItemKinds(items: seq<Item>, show: real -> string, parse: string -> Option<real>): (kinds: seq<Line>)
    ensures |kinds| == 2 * |items|
  {
    if |items| == 0 then []
    else ItemKinds(items[..|items| - 1], show, parse) + [Data(RecordOf(items[|items| - 1], show, parse)), Separator]
  }

  /** The branches the converter takes on the lines of a whole dump. */
  function DumpKinds(rows: seq<seq<Item>>, show: real -> string, parse: string -> Option<real>): seq<Line>
  {
    if |rows| == 0 then []
    else DumpKinds(rows[..|rows| - 1], show, parse) + [ThreadHeader] + ItemKinds(rows[|rows| - 1], show, parse)
  }

  /** The records of all rows, thread after thread. */
  function AllRecords(rows: seq<seq<Item>>, show: real -> string, parse: string -> Option<real>): seq<Record>
  {
    if |rows| == 0 then []
    else AllRecords(rows[..|rows| - 1], show, parse) + ItemRecords(rows[|rows| - 1], show, parse)
  }

  /** The records of one thread's items, in order. */
  function ItemRecords(items: seq<Item>, show: real -> string, parse: string -> Option<real>): (rs: seq<Record>)
    ensures |rs| == |items|
  {
    seq(|items|, k requires 0 <= k < |items| => RecordOf(items[k], show, parse))
  }

  // ------------------------------------------------------------ single lines

  /** A thread header is taken as a lane header. */
  lemma HeaderIsThread(thread: nat, parse: string -> Option<real>)
    ensures Classify(Header(thread), parse) == ThreadHeader
  {
    assert Header(thread)[..6] == "THREAD";
  }

  /** The dashed line between items is skipped. */
  lemma DashesSkipped(parse: string -> Option<real>)
    ensures Classify(DASHES, parse) == Separator
  {
    assert OccursAt(DASHES, "----", 1);
    assert !StartsWith(DASHES, "THREAD") by {
      assert DASHES[0] == '\t';
    }
  }

  /** The fields are joined with " | ", so no two dashes meet at a seam. */
  lemma {:induction false} JoinedNoDoubleDash(fields: seq<string>)
    requires |fields| > 0 && forall i :: 0 <= i < |fields| ==> NoDoubleDash(fields[i])
    ensures NoDoubleDash(Joined(fields))
  {
    if |fields| > 1 {
      JoinedNoDoubleDash(fields[1..]);
      NoDoubleDashAppend(fields[0], " | ");
      NoDoubleDashAppend(fields[0] + " | ", Joined(fields[1..]));
    }
  }

  /** A field of a data line: non-empty, no separator, no whitespace at either end. */
  predicate Bare(f: string)
  {
    '|' !in f && Trimmed(f)
  }

  /** Non-empty, with no whitespace at either end. */
  predicate Trimmed(f: string)
  {
    |f| > 0 && !IsSpace(f[0]) && !IsSpace(f[|f| - 1])
  }

  /** Whitespace holds no separator. */
  lemma SpaceNoBar(s: string)
    requires AllSpace(s)
    ensures '|' !in s
  {
    assert forall i :: 0 <= i < |s| ==> s[i] != '|';
  }

  /**
   * Splitting joined fields at '|' and stripping every piece gives the fields back, whatever
   * whitespace comes before the first field and after the last.
   */
  lemma SplitJoined(pad: string, fields: seq<string>, tail: string)
    requires AllSpace(pad) && AllSpace(tail)
    requires |fields| > 0 && forall i :: 0 <= i < |fields| ==> Bare(fields[i])
    ensures |Split(pad + Joined(fields) + tail, '|')| == |fields|
    ensures forall i :: 0 <= i < |fields| ==> Strip(Split(pad + Joined(fields) + tail, '|')[i]) == fields[i]
  {
    SplitIntoPieces(pad, fields, tail);
    PiecesStrip(pad, fields, tail);
  }

  /** The pieces between the '|'s of pad + Joined(fields) + tail, each field with its padding. */
  function Pieces(pad: string, fields: seq<string>, tail: string): (ps: seq<string>)
    requires |fields| > 0
    ensures |ps| == |fields|
    decreases |fields|
  {
    if |fields| == 1 then [pad + fields[0] + tail] else [pad + fields[0] + " "] + Pieces(" ", fields[1..], tail)
  }

  /** Joined fields split at '|' into their padded pieces. */
  lemma {:induction false} SplitIntoPieces(pad: string, fields: seq<string>, tail: string)
    requires AllSpace(pad) && AllSpace(tail)
    requires |fields| > 0 && forall i :: 0 <= i < |fields| ==> Bare(fields[i])
    ensures Split(pad + Joined(fields) + tail, '|') == Pieces(pad, fields, tail)
    decreases |fields|
  {
    SpaceNoBar(pad);
    assert Bare(fields[0]);
    if |fields| == 1 {
      SpaceNoBar(tail);
      assert pad + Joined(fields) + tail == pad + fields[0] + tail;
      SplitNone(pad + fields[0] + tail, '|');
    } else {
      var rest := fields[1..];
      assert forall i :: 0 <= i < |rest| ==> Bare(rest[i]) by {
        forall i | 0 <= i < |rest| ensures Bare(rest[i]) {
          assert rest[i] == fields[i + 1];
        }
      }
      SplitIntoPieces(" ", rest, tail);
      SplitFirst(pad, fields, tail);
    }
  }

  /** Stripping each padded piece gives its field. */
  lemma {:induction false} PiecesStrip(pad: string, fields: seq<string>, tail: string)
    requires AllSpace(pad) && AllSpace(tail)
    requires |fields| > 0 && forall i :: 0 <= i < |fields| ==> Trimmed(fields[i])
    ensures forall i :: 0 <= i < |fields| ==> Strip(Pieces(pad, fields, tail)[i]) == fields[i]
    decreases |fields|
  {
    if |fields| == 1 {
      assert Trimmed(fields[0]);
      StripPadded(pad, fields[0], tail);
    } else {
      var rest := fields[1..];
      assert forall i :: 0 <= i < |rest| ==> Trimmed(rest[i]) by {
        forall i | 0 <= i < |rest| ensures Trimmed(rest[i]) {
          assert rest[i] == fields[i + 1];
        }
      }
      PiecesStrip(" ", rest, tail);
      PiecesStripStep(pad, fields, tail);
    }
  }

  /** The first piece strips to the first field; the others are the pieces of the rest. */
  lemma PiecesStripStep(pad: string, fields: seq<string>, tail: string)
    requires AllSpace(pad) && |fields| > 1 && Trimmed(fields[0])
    requires forall i :: 0 <= i < |fields| - 1 ==> Strip(Pieces(" ", fields[1..], tail)[i]) == fields[1..][i]
    ensures forall i :: 0 <= i < |fields| ==> Strip(Pieces(pad, fields, tail)[i]) == fields[i]
  {
    StripPadded(pad, fields[0], " ");
    ShiftStrip(Pieces(pad, fields, tail), pad + fields[0] + " ", Pieces(" ", fields[1..], tail), fields, fields[1..]);
  }

  /** A piece in front of pieces that strip to the later fields: the whole strips to all fields. */
  lemma ShiftStrip(parts: seq<string>, head: string, later: seq<string>, fields: seq<string>, rest: seq<string>)
    requires |fields| > 0 && rest == fields[1..]
    requires parts == [head] + later && |later| == |rest| && Strip(head) == fields[0]
    requires forall i :: 0 <= i < |rest| ==> Strip(later[i]) == rest[i]
    ensures |parts| == |fields| && forall i :: 0 <= i < |fields| ==> Strip(parts[i]) == fields[i]
  {
    forall i | 1 <= i < |fields|
      ensures Strip(parts[i]) == fields[i]
    {
      assert parts[i] == later[i - 1] && fields[i] == rest[i - 1];
    }
  }

  /** The first '|' of joined fields ends the first field and its padding. */
  lemma SplitFirst(pad: string, fields: seq<string>, tail: string)
    requires |fields| > 1 && '|' !in pad && '|' !in fields[0]
    ensures Split(pad + Joined(fields) + tail, '|') == [pad + fields[0] + " "] + Split(" " + Joined(fields[1..]) + tail, '|')
  {
    var head, x := pad + fields[0] + " ", " " + Joined(fields[1..]) + tail;
    assert pad + Joined(fields) + tail == head + ['|'] + x;
    SplitAt(head, x, '|');
  }

  /** Every printed field is a bare, dash-pair-free token starting with a number character. */
  lemma FieldsBare(item: Item, show: real -> string, parse: string -> Option<real>)
    requires Readable(show, parse)
    ensures var fields := Fields(item, show);
            && (forall i :: 0 <= i < 8 ==> Bare(fields[i]) && NoDoubleDash(fields[i]))
            && NumberChar(fields[0][0])
  {
    var fields := Fields(item, show);
    assert NumberText(show(item.schedStart)) && NumberText(show(item.schedEnd)) && NumberText(show(item.execEnd));
    forall i | 0 <= i < 8
      ensures Bare(fields[i]) && NoDoubleDash(fields[i])
    {
      if i < 3 {
        assert NumberText(fields[i]);
      } else {
        DigitsNoDash(fields[i]);
      }
      assert forall k :: 0 <= k < |fields[i]| ==> fields[i][k] != '|';
    }
  }

  /** The eight numbers of a record, in the order of the line. */
  function Values(r: Record): (v: seq<real>)
    ensures |v| == 8
  {
    [r.ss, r.se, r.ee, r.rdtscpS, r.rdtscpE, r.stack as real, r.previous as real, r.current as real]
  }

  /** float() reads the five integer fields back exactly below 10^15, and the times as their readings. */
  lemma FieldsRead(item: Item, show: real -> string, parse: string -> Option<real>)
    requires Readable(show, parse) && ExactItem(item)
    ensures var fields, v := Fields(item, show), Values(RecordOf(item, show, parse));
            forall i :: 0 <= i < 8 ==> ParseFloat(fields[i], parse) == Some(v[i])
  {
    var fields, v := Fields(item, show), Values(RecordOf(item, show, parse));
    assert ParseFloat(show(item.schedStart), parse).Some?;
    assert ParseFloat(show(item.schedEnd), parse).Some?;
    assert ParseFloat(show(item.execEnd), parse).Some?;
    var numbers := [item.rdtscpSched, item.rdtscpExec, item.stack, item.previous, item.current];
    forall i | 3 <= i < 8
      ensures ParseFloat(fields[i], parse) == Some(v[i])
    {
      assert fields[i] == Decimal(numbers[i - 3]) && v[i] == numbers[i - 3] as real;
      assert Pow10(EXACT_DIGITS) == EXACT_LIMIT;
      DecimalLength(numbers[i - 3], EXACT_DIGITS);
      DecimalRoundTrip(numbers[i - 3]);
    }
  }

  /** An item line is neither a header nor a separator, and splits into its eight fields. */
  lemma ItemLineShape(item: Item, show: real -> string, parse: string -> Option<real>)
    requires Readable(show, parse)
    ensures var fields, line := Fields(item, show), Joined(Fields(item, show)) + "\n";
            && !StartsWith(line, "THREAD") && !Contains(line, "----")
            && |Split(line, '|')| == 8
            && forall i :: 0 <= i < 8 ==> Strip(Split(line, '|')[i]) == fields[i]
  {
    var fields := Fields(item, show);
    var line := Joined(fields) + "\n";
    FieldsBare(item, show, parse);
    assert line[0] == fields[0][0];
    assert !StartsWith(line, "THREAD") by {
      assert NumberChar(line[0]);
    }
    JoinedNoDoubleDash(fields);
    NoDoubleDashAppend(Joined(fields), "\n");
    NoDashRun(line);
    assert "" + Joined(fields) + "\n" == line;
    SplitJoined("", fields, "\n");
  }

  /** An item line is read as the item's record. */
  lemma ItemIsData(item: Item, show: real -> string, parse: string -> Option<real>)
    requires Readable(show, parse) && ExactItem(item)
    ensures Classify(Joined(Fields(item, show)) + "\n", parse) == Data(RecordOf(item, show, parse))
  {
    var r := RecordOf(item, show, parse);
    ItemLineShape(item, show, parse);
    ItemValues(item, show, parse);
    TruncWhole(r.stack);
    TruncWhole(r.previous);
    TruncWhole(r.current);
  }

  /** The eight pieces of an item line parse as the eight numbers of its record. */
  lemma ItemValues(item: Item, show: real -> string, parse: string -> Option<real>)
    requires Readable(show, parse) && ExactItem(item)
    ensures ParseFields(Split(Joined(Fields(item, show)) + "\n", '|'), parse) == Some(Values(RecordOf(item, show, parse)))
  {
    var parts, v := Split(Joined(Fields(item, show)) + "\n", '|'), Values(RecordOf(item, show, parse));
    ItemPieces(item, show, parse);
    ParseFieldsMeaning(parts, parse);
    assert ParseFields(parts, parse).value == v;
  }

  /** Each stripped piece of an item line is read as the matching number of its record. */
  lemma ItemPieces(item: Item, show: real -> string, parse: string -> Option<real>)
    requires Readable(show, parse) && ExactItem(item)
    ensures var parts, v := Split(Joined(Fields(item, show)) + "\n", '|'), Values(RecordOf(item, show, parse));
            |parts| == 8 && forall i :: 0 <= i < 8 ==> ParseFloat(Strip(parts[i]), parse) == Some(v[i])
  {
    var fields := Fields(item, show);
    ItemLineShape(item, show, parse);
    FieldsRead(item, show, parse);
    var parts := Split(Joined(fields) + "\n", '|');
    forall i | 0 <= i < 8
      ensures ParseFloat(Strip(parts[i]), parse) == Some(Values(RecordOf(item, show, parse))[i])
    {
      assert Strip(parts[i]) == fields[i];
    }
  }

  // ------------------------------------------------------------ whole dumps

  /** The converter classifies each line on its own. */
  lemma KindsAppend(a: seq<string>, b: seq<string>, parse: string -> Option<real>)
    ensures Kinds(a + b, parse) == Kinds(a, parse) + Kinds(b, parse)
  {
    MapLinesAppend(a, b, Classifier(parse));
  }

  /** Mapping over two runs of lines maps each run on its own. */
  lemma MapLinesAppend(a: seq<string>, b: seq<string>, f: string -> Line)
    ensures MapLines(a + b, f) == MapLines(a, f) + MapLines(b, f)
  {
    var whole, front, back := MapLines(a + b, f), MapLines(a, f), MapLines(b, f);
    forall i | 0 <= i < |a + b|
      ensures whole[i] == (front + back)[i]
    {
      if i < |a| {
        assert (a + b)[i] == a[i];
      } else {
        assert (a + b)[i] == b[i - |a|];
      }
    }
  }

  /** The lines of a run of items are read as data line, separator, data line, separator, ... */
  lemma {:induction false} KindsOfItems(items: seq<Item>, show: real -> string, parse: string -> Option<real>)
    requires Readable(show, parse) && ExactItems(items)
    ensures Kinds(ItemsText(items, show), parse) == ItemKinds(items, show, parse)
  {
    if |items| > 0 {
      var last := items[|items| - 1];
      var prefix := items[..|items| - 1];
      ExactPrefix(items);
      KindsOfItems(prefix, show, parse);
      KindsAppend(ItemsText(prefix, show), ItemLines(last, show), parse);
      ItemIsData(last, show, parse);
      DashesSkipped(parse);
      KindsOfPair(Joined(Fields(last, show)) + "\n", DASHES, parse);
    }
  }

  /** The items before the last of an exact run are exact, and so is the last. */
  lemma ExactPrefix(items: seq<Item>)
    requires |items| > 0 && ExactItems(items)
    ensures ExactItems(items[..|items| - 1]) && ExactItem(items[|items| - 1])
  {
    var prefix := items[..|items| - 1];
    forall k | 0 <= k < |prefix|
      ensures ExactItem(prefix[k])
    {
      assert prefix[k] == items[k];
    }
  }

  /** Two lines are classified one after the other. */
  lemma KindsOfPair(first: string, second: string, parse: string -> Option<real>)
    ensures Kinds([first, second], parse) == [Classify(first, parse), Classify(second, parse)]
  {
  }

  /** The lines of a dump are read as one header per thread followed by its items. */
  lemma {:induction false} KindsOfDump(rows: seq<seq<Item>>, show: real -> string, parse: string -> Option<real>)
    requires Readable(show, parse) && ExactRows(rows)
    ensures Kinds(Dump(rows, show), parse) == DumpKinds(rows, show, parse)
  {
    if |rows| > 0 {
      var n := |rows| - 1;
      assert ExactItems(rows[n]);
      var front := rows[..n];
      assert ExactRows(front) by {
        forall t | 0 <= t < |front|
          ensures ExactItems(front[t])
        {
          assert front[t] == rows[t];
        }
      }
      KindsOfDump(rows[..n], show, parse);
      KindsAppend(Dump(rows[..n], show), [Header(n)], parse);
      KindsAppend(Dump(rows[..n], show) + [Header(n)], ItemsText(rows[n], show), parse);
      KindsOfItems(rows[n], show, parse);
      HeaderIsThread(n, parse);
    }
  }

  /** The items of one thread contribute no header, no malformed line and their records in order. */
  lemma ItemKindsRead(items: seq<Item>, show: real -> string, parse: string -> Option<real>)
    ensures Headers(ItemKinds(items, show, parse)) == 0
    ensures forall i :: 0 <= i < |ItemKinds(items, show, parse)| ==> !ItemKinds(items, show, parse)[i].Malformed?
    ensures Records(ItemKinds(items, show, parse)) == ItemRecords(items, show, parse)
  {
    ItemKindsHeaders(items, show, parse);
    ItemKindsWellFormed(items, show, parse);
    ItemKindsRecords(items, show, parse);
  }

  lemma {:induction false} ItemKindsHeaders(items: seq<Item>, show: real -> string, parse: string -> Option<real>)
    ensures Headers(ItemKinds(items, show, parse)) == 0
  {
    if |items| > 0 {
      var prefix := items[..|items| - 1];
      var pair := [Data(RecordOf(items[|items| - 1], show, parse)), Separator];
      ItemKindsHeaders(prefix, show, parse);
      HeadersAppend(ItemKinds(prefix, show, parse), pair);
      assert pair[..1] == [pair[0]];
      assert Headers(pair) == 0;
    }
  }

  lemma {:induction false} ItemKindsWellFormed(items: seq<Item>, show: real -> string, parse: string -> Option<real>)
    ensures forall i :: 0 <= i < |ItemKinds(items, show, parse)| ==> !ItemKinds(items, show, parse)[i].Malformed?
  {
    if |items| > 0 {
      var prefix := items[..|items| - 1];
      var before := ItemKinds(prefix, show, parse);
      var kinds := ItemKinds(items, show, parse);
      ItemKindsWellFormed(prefix, show, parse);
      forall i | 0 <= i < |kinds|
        ensures !kinds[i].Malformed?
      {
        if i < |before| {
          assert kinds[i] == before[i];
        }
      }
    }
  }

  lemma {:induction false} ItemKindsRecords(items: seq<Item>, show: real -> string, parse: string -> Option<real>)
    ensures Records(ItemKinds(items, show, parse)) == ItemRecords(items, show, parse)
  {
    if |items| > 0 {
      var prefix := items[..|items| - 1];
      var r := RecordOf(items[|items| - 1], show, parse);
      var pair := [Data(r), Separator];
      ItemKindsRecords(prefix, show, parse);
      RecordsAppend(ItemKinds(prefix, show, parse), pair);
      assert pair[..1] == [pair[0]];
      assert Records(pair) == [r];
      var front := ItemRecords(prefix, show, parse);
      assert ItemRecords(items, show, parse) == front + [r] by {
        forall k | 0 <= k < |items|
          ensures ItemRecords(items, show, parse)[k] == (front + [r])[k]
        {
          if k < |prefix| {
            assert items[k] == prefix[k];
          }
        }
      }
    }
  }

  /** A dump contributes one header per thread, no malformed line, and all records thread by thread. */
  lemma DumpKindsRead(rows: seq<seq<Item>>, show: real -> string, parse: string -> Option<real>)
    ensures Headers(DumpKinds(rows, show, parse)) == |rows|
    ensures forall i :: 0 <= i < |DumpKinds(rows, show, parse)| ==> !DumpKinds(rows, show, parse)[i].Malformed?
    ensures Records(DumpKinds(rows, show, parse)) == AllRecords(rows, show, parse)
  {
    DumpKindsHeaders(rows, show, parse);
    DumpKindsWellFormed(rows, show, parse);
    DumpKindsRecords(rows, show, parse);
  }

  lemma {:induction false} DumpKindsHeaders(rows: seq<seq<Item>>, show: real -> string, parse: string -> Option<real>)
    ensures Headers(DumpKinds(rows, show, parse)) == |rows|
  {
    if |rows| > 0 {
      var n := |rows| - 1;
      var before := DumpKinds(rows[..n], show, parse);
      DumpKindsHeaders(rows[..n], show, parse);
      ItemKindsHeaders(rows[n], show, parse);
      HeadersAppend(before, [ThreadHeader]);
      HeadersAppend(before + [ThreadHeader], ItemKinds(rows[n], show, parse));
      assert Headers([ThreadHeader]) == 1;
    }
  }

  lemma {:induction false} DumpKindsWellFormed(rows: seq<seq<Item>>, show: real -> string, parse: string -> Option<real>)
    ensures forall i :: 0 <= i < |DumpKinds(rows, show, parse)| ==> !DumpKinds(rows, show, parse)[i].Malformed?
  {
    if |rows| > 0 {
      var n := |rows| - 1;
      var before, items := DumpKinds(rows[..n], show, parse), ItemKinds(rows[n], show, parse);
      var kinds := DumpKinds(rows, show, parse);
      DumpKindsWellFormed(rows[..n], show, parse);
      ItemKindsWellFormed(rows[n], show, parse);
      assert kinds == before + [ThreadHeader] + items;
      forall i | 0 <= i < |kinds|
        ensures !kinds[i].Malformed?
      {
        if i < |before| {
          assert kinds[i] == before[i];
        } else if i > |before| {
          assert kinds[i] == items[i - |before| - 1];
        }
      }
    }
  }

  lemma {:induction false} DumpKindsRecords(rows: seq<seq<Item>>, show: real -> string, parse: string -> Option<real>)
    ensures Records(DumpKinds(rows, show, parse)) == AllRecords(rows, show, parse)
  {
    if |rows| > 0 {
      var n := |rows| - 1;
      var before := DumpKinds(rows[..n], show, parse);
      DumpKindsRecords(rows[..n], show, parse);
      ItemKindsRecords(rows[n], show, parse);
      RecordsAppend(before, [ThreadHeader]);
      RecordsAppend(before + [ThreadHeader], ItemKinds(rows[n], show, parse));
      assert Records([ThreadHeader]) == [];
    }
  }


  /**
   * Reading back what write_profiling wrote: the converter's loop runs to the end, opens one
   * lane per thread and reads every item, thread after thread, as the record holding its
   * values, when every integer field of the log is below 10^15.
   */
  lemma DumpReadBack(rows: seq<seq<Item>>, show: real -> string, parse: string -> Option<real>)
    requires Readable(show, parse) && ExactRows(rows)
    ensures var kinds := Kinds(Dump(rows, show), parse);
            && Scan(kinds).Ok?
            && Headers(kinds) == |rows|
            && Records(kinds) == AllRecords(rows, show, parse)
  {
    KindsOfDump(rows, show, parse);
    DumpKindsRead(rows, show, parse);
    ScanOkIff(DumpKinds(rows, show, parse));
  }
}
