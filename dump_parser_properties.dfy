/**
 * What `extract_data` (lammps_utils.py:5-37) promises about one dump file, proved of the
 * model in DumpParser.
 */
module DumpParserProperties {
  import opened Wrappers
  import opened Text
  import opened DumpParser

  /** On success all ten lists have one entry per atom line read, so they have equal length. */
  lemma ParallelLists(lines: seq<string>, conv: Conversions)
    requires Extract(lines, conv).Ok?
    ensures forall j :: 0 <= j < FieldCount ==>
              |Extract(lines, conv).value.Column(j)| == |AtomLines(lines, End(lines))|
  {
    ExtractMatchesReference(lines, conv);
    forall j | 0 <= j < FieldCount
      ensures |Extract(lines, conv).value.Column(j)| == |AtomLines(lines, End(lines))|
    {
      ReferenceColumn(lines, End(lines), j, conv);
      FieldColumnSpec(lines, AtomLines(lines, End(lines)), j, conv);
    }
  }

  /** On success entry `m` of the `j`-th list is the value of token `j + 3` (1-based) of the
      `m`-th atom line, the atom lines being, in file order, exactly the lines after an atoms
      header that are not themselves a header, up to the terminating blank line. */
  lemma RecordsAligned(lines: seq<string>, conv: Conversions)
    requires Extract(lines, conv).Ok?
    ensures var idx := AtomLines(lines, End(lines));
            forall k :: k in idx <==> 0 <= k < End(lines) && IsAtomLine(lines, k)
    ensures var idx := AtomLines(lines, End(lines));
            forall m :: 0 <= m < |idx| ==>
              |Split(lines[idx[m]])| >= 2 + FieldCount
              && forall i :: 2 <= i < |Split(lines[idx[m]])| ==> conv.toFloat(Split(lines[idx[m]])[i]).Some?
    ensures var idx, s := AtomLines(lines, End(lines)), Extract(lines, conv).value;
            forall j :: 0 <= j < FieldCount ==>
              |s.Column(j)| == |idx|
              && forall m :: 0 <= m < |idx| ==> s.Column(j)[m] == conv.toFloat(Split(lines[idx[m]])[j + 2]).value
  {
    var e := End(lines);
    var idx := AtomLines(lines, e);
    var s := Extract(lines, conv).value;
    ExtractMatchesReference(lines, conv);
    forall m | 0 <= m < |idx|
      ensures ParseRecord(lines[idx[m]], conv).Ok?
      ensures |Split(lines[idx[m]])| >= 2 + FieldCount
      ensures forall i :: 2 <= i < |Split(lines[idx[m]])| ==> conv.toFloat(Split(lines[idx[m]])[i]).Some?
      ensures forall j :: 0 <= j < FieldCount ==>
                ParseRecord(lines[idx[m]], conv).value[j] == conv.toFloat(Split(lines[idx[m]])[j + 2]).value
    {
      assert !RecordFails(lines, idx[m], conv);
      ParseRecordSpec(lines[idx[m]], conv);
    }
    forall j | 0 <= j < FieldCount
      ensures |s.Column(j)| == |idx|
      ensures forall m :: 0 <= m < |idx| ==> s.Column(j)[m] == ParseRecord(lines[idx[m]], conv).value[j]
    {
      ReferenceColumn(lines, e, j, conv);
      FieldColumnSpec(lines, idx, j, conv);
    }
  }

  /** An atom line with fewer than ten tokens after the first two, or with a token after the
      first two that does not convert, makes the parse fail. */
  lemma BadAtomLineFails(lines: seq<string>, k: nat, conv: Conversions)
    requires k < End(lines) && IsAtomLine(lines, k)
    requires |Split(lines[k])| < 2 + FieldCount
             || exists i :: 2 <= i < |Split(lines[k])| && conv.toFloat(Split(lines[k])[i]).None?
    ensures Extract(lines, conv).Err?
  {
    ParseRecordSpec(lines[k], conv);
    assert RecordFails(lines, k, conv);
    ExtractMatchesReference(lines, conv);
  }

  /** The marker line, with or without the newline `readlines` keeps, splits into two tokens,
      so nothing is left after the id and type. */
  lemma TimestepMarkerTokens()
    ensures Split(TimestepMarker) == ["ITEM:", "TIMESTEP"]
    ensures Split(TimestepMarker + "\n") == ["ITEM:", "TIMESTEP"]
  {
    assert Unwords(["ITEM:", "TIMESTEP"]) == TimestepMarker;
    assert IsWord("ITEM:") && IsWord("TIMESTEP");
    SplitUnwords(["ITEM:", "TIMESTEP"]);
    SplitIgnoresTrailingSpace(TimestepMarker, '\n');
  }

  /** A timestep marker met inside the atom section (no blank line before it) falls through to
      the record parse and fails there unless it carries ten more tokens; the bare marker line
      always fails. */
  lemma MarkerInAtomSectionFails(lines: seq<string>, k: nat, conv: Conversions)
    requires k < End(lines) && Started(lines, k) && IsMarker(lines[k])
    requires |Split(lines[k])| < 2 + FieldCount
    ensures Extract(lines, conv).Err?
  {
    MarkerFacts(lines[k]);
    BadAtomLineFails(lines, k, conv);
  }

  /** In particular the bare marker line, newline or not, fails inside the atom section. */
  lemma BareMarkerInAtomSectionFails(lines: seq<string>, k: nat, conv: Conversions)
    requires k < End(lines) && Started(lines, k)
    requires lines[k] == TimestepMarker || lines[k] == TimestepMarker + "\n"
    ensures Extract(lines, conv).Err?
  {
    TimestepMarkerTokens();
    assert IsMarker(lines[k]) by {
      assert lines[k][..|TimestepMarker|] == TimestepMarker;
    }
    MarkerInAtomSectionFails(lines, k, conv);
  }

  /** A timestep marker on the last line, or followed by a line that is no integer, makes the
      parse fail when the scan reaches it. */
  lemma BadMarkerFails(lines: seq<string>, k: nat, conv: Conversions)
    requires k < End(lines) && IsMarker(lines[k])
    requires k + 1 == |lines| || conv.toInt(Strip(lines[k + 1])).None?
    ensures Extract(lines, conv).Err?
  {
    assert MarkerFails(lines, k, conv);
    ExtractMatchesReference(lines, conv);
  }

  /** Line `k` holds the last timestep marker below `n`. */
  predicate LastMarkerBelow(lines: seq<string>, k: nat, n: nat)
    requires n <= |lines|
  {
    k < n && IsMarker(lines[k]) && forall k' :: k < k' < n ==> !IsMarker(lines[k'])
  }

  /** `LastTimestep` is the integer after the last marker, or `None` when there is no marker. */
  lemma {:induction false} LastTimestepIsLastMarker(lines: seq<string>, n: nat, conv: Conversions)
    requires n <= |lines|
    ensures (forall k :: 0 <= k < n ==> !IsMarker(lines[k])) ==> LastTimestep(lines, n, conv) == None
    ensures forall k :: 0 <= k && LastMarkerBelow(lines, k, n) && k + 1 < |lines| ==>
              LastTimestep(lines, n, conv) == conv.toInt(Strip(lines[k + 1]))
    decreases n
  {
    if n > 0 {
      LastTimestepIsLastMarker(lines, n - 1, conv);
      forall k | 0 <= k && LastMarkerBelow(lines, k, n) && k + 1 < |lines|
        ensures LastTimestep(lines, n, conv) == conv.toInt(Strip(lines[k + 1]))
      {
        if k < n - 1 {
          assert !IsMarker(lines[n - 1]);
          assert LastMarkerBelow(lines, k, n - 1);
        }
      }
    }
  }

  /** On success the timestep is `None` when no marker comes before the end of the scan, and
      otherwise the integer on the line after the last marker met. */
  lemma TimestepIsLastMarker(lines: seq<string>, conv: Conversions)
    requires Extract(lines, conv).Ok?
    ensures (forall k :: 0 <= k < End(lines) ==> !IsMarker(lines[k])) ==>
              Extract(lines, conv).value.timeStep == None
    ensures forall k :: 0 <= k && LastMarkerBelow(lines, k, End(lines)) ==>
              k + 1 < |lines| && conv.toInt(Strip(lines[k + 1])).Some?
              && Extract(lines, conv).value.timeStep == conv.toInt(Strip(lines[k + 1]))
  {
    var e := End(lines);
    ExtractMatchesReference(lines, conv);
    ReferenceColumn(lines, e, 0, conv);
    LastTimestepIsLastMarker(lines, e, conv);
    forall k | 0 <= k && LastMarkerBelow(lines, k, e)
      ensures k + 1 < |lines| && conv.toInt(Strip(lines[k + 1])).Some?
    {
      assert !MarkerFails(lines, k, conv);
    }
  }

  /** Reaching the end of the input inside the atom section is a normal return. */
  lemma EndOfInputReturns(lines: seq<string>, conv: Conversions)
    requires End(lines) == |lines| && NoFailure(lines, |lines|, conv)
    ensures Extract(lines, conv) == Ok(Reference(lines, |lines|, conv))
  {
    ExtractMatchesReference(lines, conv);
  }

  /** The terminating blank line ends the scan normally, whatever line follows it. */
  lemma StepAtStop(lines: seq<string>, e: nat, next: Option<string>, acc: Snapshot, conv: Conversions)
    requires e < |lines| && StopsAt(lines, e)
    ensures Step(e, lines[e], next, acc, Started(lines, e), conv) == Exit(Ok(acc))
  {
    MarkerFacts(lines[e]);
  }

  /** A step that goes on leaves the flag at whether a header has been seen so far. */
  lemma StepKeepsStarted(lines: seq<string>, i: nat, next: Option<string>, acc: Snapshot, conv: Conversions)
    requires i < |lines|
    ensures var flow := Step(i, lines[i], next, acc, Started(lines, i), conv);
            flow.Continue? ==> flow.started == Started(lines, i + 1)
  {
    MarkerFacts(lines[i]);
    StartedNext(lines, i);
  }

  /** Two inputs that agree up to and including the terminating blank line `e` scan alike. */
  lemma {:induction false} ScanIgnoresTail(lines: seq<string>, lines': seq<string>, e: nat, i: nat,
                                           acc: Snapshot, started: bool, conv: Conversions)
    requires e == End(lines) && e < |lines| && e < |lines'| && i <= e
    requires forall k :: 0 <= k <= e ==> lines'[k] == lines[k]
    requires started == Started(lines, i)
    ensures Scan(lines, i, acc, started, conv) == Scan(lines', i, acc, started, conv)
    decreases e - i
  {
    var line := lines[i];
    assert line == lines'[i];
    ScanUnfold(lines, i, acc, started, conv);
    ScanUnfold(lines', i, acc, started, conv);
    if i == e {
      StepAtStop(lines, e, NextLine(lines, e), acc, conv);
      StepAtStop(lines, e, NextLine(lines', e), acc, conv);
    } else {
      var next := NextLine(lines, i);
      assert next == NextLine(lines', i);
      var flow := Step(i, line, next, acc, started, conv);
      StepKeepsStarted(lines, i, next, acc, conv);
      if flow.Continue? {
        ScanIgnoresTail(lines, lines', e, i + 1, flow.acc, flow.started, conv);
      }
    }
  }

  /** After the first whitespace-only line of the atom section nothing affects the result:
      replacing everything after it (later markers included) changes nothing. */
  lemma AfterBlankIgnored(lines: seq<string>, rest: seq<string>, conv: Conversions)
    requires End(lines) < |lines|
    ensures Extract(lines[..End(lines) + 1] + rest, conv) == Extract(lines, conv)
  {
    var e := End(lines);
    var lines' := lines[..e + 1] + rest;
    assert forall k :: 0 <= k <= e ==> lines'[k] == lines[k];
    ScanIgnoresTail(lines, lines', e, 0, EmptySnapshot, false, conv);
  }

  // ---------------------------------------------------------------------------------------
  // Round trip: a dump file written from known per-atom values parses back to those values.
  // ---------------------------------------------------------------------------------------

  const AtomsHeaderLine := AtomsMarker + " id type x y z vx vy vz fx fy fz c_etot"

  /** The tokens written for a record: the id, the type and the ten shown values. */
  function RecordWords(v: seq<real>, show: real -> string): seq<string>
    requires |v| == FieldCount
  {
    ["1", "1"] + seq(FieldCount, j requires 0 <= j < FieldCount => show(v[j]))
  }

  /** An atom line with id 1 and type 1 and the ten values written by `show`, ending with a newline. */
  function RecordLine(v: seq<real>, show: real -> string): string
    requires |v| == FieldCount
  {
    Unwords(RecordWords(v, show)) + "\n"
  }

  /** A dump file as `readlines` gives it: the timestep marker, the timestep line, the atoms
      header and one line per record, each ending with a newline. */
  function DumpText(timestepLine: string, records: seq<seq<real>>, show: real -> string): seq<string>
    requires forall m :: 0 <= m < |records| ==> |records[m]| == FieldCount
  {
    [TimestepMarker + "\n", timestepLine + "\n", AtomsHeaderLine + "\n"]
      + seq(|records|, m requires 0 <= m < |records| => RecordLine(records[m], show))
  }

  /** `s` holds timestep `t` and, in list `j`, field `j` of the first `m` records in order. */
  predicate HoldsRecords(s: Snapshot, t: int, records: seq<seq<real>>, m: nat)
    requires m <= |records| && forall i :: 0 <= i < |records| ==> |records[i]| == FieldCount
  {
    && s.timeStep == Some(t)
    && (forall j :: 0 <= j < FieldCount ==> |s.Column(j)| == m)
    && (forall j, i :: 0 <= j < FieldCount && 0 <= i < m ==> s.Column(j)[i] == records[i][j])
  }

  /** Every value of `v` is written by `show` as one token that `float()` reads back as that value. */
  predicate ShowsBack(v: seq<real>, show: real -> string, conv: Conversions) {
    forall j :: 0 <= j < |v| ==> IsWord(show(v[j])) && conv.toFloat(show(v[j])) == Some(v[j])
  }

  lemma UnwordsHead(ws: seq<string>)
    requires |ws| > 0 && |ws[0]| > 0
    ensures |Unwords(ws)| > 0 && Unwords(ws)[0] == ws[0][0]
  {
  }

  /** A record line splits into its written tokens, each of which after the first two reads
      back as the value it shows. */
  lemma RecordLineTokens(v: seq<real>, show: real -> string, conv: Conversions)
    requires |v| == FieldCount
    requires ShowsBack(v, show, conv)
    ensures Split(RecordLine(v, show)) == RecordWords(v, show)
    ensures forall i :: 2 <= i < 2 + FieldCount ==> conv.toFloat(RecordWords(v, show)[i]) == Some(v[i - 2])
  {
    var ws := RecordWords(v, show);
    assert IsWord("1") by { assert !IsSpace("1"[0]); }
    forall i | 0 <= i < |ws|
      ensures IsWord(ws[i])
      ensures 2 <= i ==> conv.toFloat(ws[i]) == Some(v[i - 2])
    {
      if i < 2 {
        assert ws[i] == "1";
      } else {
        var r := v[i - 2];
        assert ws[i] == show(r);
        assert IsWord(show(r)) && conv.toFloat(show(r)) == Some(r) by { assert v[i - 2] == r; }
      }
    }
    SplitUnwords(ws);
    SplitIgnoresTrailingSpace(Unwords(ws), '\n');
  }

  /** A record line is neither marker nor header nor blank, since it starts with the id `1`. */
  lemma RecordLineKind(v: seq<real>, show: real -> string)
    requires |v| == FieldCount
    requires forall j :: 0 <= j < |v| ==> IsWord(show(v[j]))
    ensures !IsMarker(RecordLine(v, show)) && !IsHeader(RecordLine(v, show)) && !IsBlank(RecordLine(v, show))
  {
    var ws := RecordWords(v, show);
    var line := RecordLine(v, show);
    UnwordsHead(ws);
    assert line[0] == Unwords(ws)[0] == '1';
    assert !IsMarker(line) by {
      if |TimestepMarker| <= |line| { assert line[..|TimestepMarker|][0] == '1'; }
    }
    assert !IsHeader(line) by {
      if |AtomsMarker| <= |line| { assert line[..|AtomsMarker|][0] == '1'; }
    }
    BlankIffNoWords(line);
    assert !IsSpace(line[0]);
  }

  /** A record line is neither marker nor header nor blank, and reads back as its record. */
  lemma RecordLineReads(v: seq<real>, show: real -> string, conv: Conversions)
    requires |v| == FieldCount
    requires ShowsBack(v, show, conv)
    ensures !IsMarker(RecordLine(v, show)) && !IsHeader(RecordLine(v, show)) && !IsBlank(RecordLine(v, show))
    ensures ParseRecord(RecordLine(v, show), conv) == Ok(v)
  {
    var line := RecordLine(v, show);
    RecordLineKind(v, show);
    RecordLineTokens(v, show, conv);
    ParseRecordSpec(line, conv);
    assert |Split(line)| == 2 + FieldCount;
    assert ParseRecord(line, conv).Ok?;
    var r := ParseRecord(line, conv).value;
    assert |r| == FieldCount && forall j :: 0 <= j < FieldCount ==> r[j] == v[j];
    assert r == v;
  }

  /** Appending record `m` to a snapshot holding the first `m` records holds the first `m + 1`. */
  lemma HoldsRecordsAppend(acc: Snapshot, t: int, records: seq<seq<real>>, m: nat)
    requires m < |records| && forall i :: 0 <= i < |records| ==> |records[i]| == FieldCount
    requires HoldsRecords(acc, t, records, m)
    ensures HoldsRecords(Append(acc, records[m]), t, records, m + 1)
  {
    var acc' := Append(acc, records[m]);
    forall j | 0 <= j < FieldCount
      ensures |acc'.Column(j)| == m + 1
      ensures forall i :: 0 <= i < m + 1 ==> acc'.Column(j)[i] == records[i][j]
    {
      var before := acc.Column(j);
      assert acc'.Column(j) == before + [records[m][j]];
      assert |before| == m && forall i :: 0 <= i < m ==> before[i] == records[i][j];
    }
  }

  /** From the first record line on, the scan reads the remaining records and returns. */
  lemma {:induction false} ScanRecords(lines: seq<string>, t: int, records: seq<seq<real>>,
                                       show: real -> string, conv: Conversions, m: nat, acc: Snapshot)
    requires forall i :: 0 <= i < |records| ==> |records[i]| == FieldCount
    requires forall m :: 0 <= m < |records| ==> ShowsBack(records[m], show, conv)
    requires |lines| == 3 + |records| && forall i :: 0 <= i < |records| ==> lines[3 + i] == RecordLine(records[i], show)
    requires m <= |records| && HoldsRecords(acc, t, records, m)
    ensures Scan(lines, 3 + m, acc, true, conv).Ok?
    ensures HoldsRecords(Scan(lines, 3 + m, acc, true, conv).value, t, records, |records|)
    decreases |records| - m
  {
    if m < |records| {
      var line := lines[3 + m];
      assert ShowsBack(records[m], show, conv);
      RecordLineReads(records[m], show, conv);
      var acc' := Append(acc, records[m]);
      assert Step(3 + m, line, NextLine(lines, 3 + m), acc, true, conv) == Continue(acc', true);
      HoldsRecordsAppend(acc, t, records, m);
      ScanRecords(lines, t, records, show, conv, m + 1, acc');
    }
  }

  /** Ending a line with a newline does not make it a marker or a header. */
  lemma NewlineKeepsKind(s: string)
    ensures IsMarker(s + "\n") ==> IsMarker(s)
    ensures IsHeader(s + "\n") ==> IsHeader(s)
  {
    var t := s + "\n";
    assert t[|s|] == '\n' && t[..|s|] == s;
    assert TimestepMarker[|TimestepMarker| - 1] == 'P' && AtomsMarker[|AtomsMarker| - 1] == 'S';
    if IsMarker(t) {
      assert s[..|TimestepMarker|] == t[..|TimestepMarker|];
    }
    if IsHeader(t) {
      assert s[..|AtomsMarker|] == t[..|AtomsMarker|];
    }
  }

  /** A marker, a timestep line and an atoms header leave the scan in the atom section with the
      timestep set and no records. */
  lemma ScanPreamble(lines: seq<string>, t: int, conv: Conversions)
    requires |lines| >= 3 && IsMarker(lines[0]) && IsHeader(lines[2])
    requires !IsMarker(lines[1]) && !IsHeader(lines[1])
    requires conv.toInt(Strip(lines[1])) == Some(t)
    ensures Scan(lines, 0, EmptySnapshot, false, conv) == Scan(lines, 3, EmptySnapshot.(timeStep := Some(t)), true, conv)
  {
    var start := EmptySnapshot.(timeStep := Some(t));
    MarkerFacts(lines[0]);
    MarkerFacts(lines[2]);
    assert NextLine(lines, 0) == Some(lines[1]);
    assert Step(0, lines[0], NextLine(lines, 0), EmptySnapshot, false, conv) == Continue(start, false);
    assert Scan(lines, 0, EmptySnapshot, false, conv) == Scan(lines, 1, start, false, conv);
    assert Step(1, lines[1], NextLine(lines, 1), start, false, conv) == Continue(start, false);
    assert Scan(lines, 1, start, false, conv) == Scan(lines, 2, start, false, conv);
    assert Step(2, lines[2], NextLine(lines, 2), start, false, conv) == Continue(start, true);
  }

  /** A file made of a marker, a timestep line, an atoms header and one record line per record
      parses back to that timestep and those records. */
  lemma ParsesBack(lines: seq<string>, t: int, records: seq<seq<real>>, show: real -> string,
                   conv: Conversions)
    requires forall m :: 0 <= m < |records| ==> |records[m]| == FieldCount
    requires forall m :: 0 <= m < |records| ==> ShowsBack(records[m], show, conv)
    requires |lines| == 3 + |records| && forall i :: 0 <= i < |records| ==> lines[3 + i] == RecordLine(records[i], show)
    requires IsMarker(lines[0]) && IsHeader(lines[2]) && !IsMarker(lines[1]) && !IsHeader(lines[1])
    requires conv.toInt(Strip(lines[1])) == Some(t)
    ensures Extract(lines, conv).Ok? && HoldsRecords(Extract(lines, conv).value, t, records, |records|)
  {
    ScanPreamble(lines, t, conv);
    var start := EmptySnapshot.(timeStep := Some(t));
    assert HoldsRecords(start, t, records, 0);
    ScanRecords(lines, t, records, show, conv, 0, start);
  }

  /** Parsing a dump file written from a timestep line and per-atom values, every line ending
      with a newline, gives back exactly that timestep and those values, each list in record
      order. */
  lemma RoundTrip(t: int, timestepLine: string, records: seq<seq<real>>, show: real -> string,
                  conv: Conversions)
    requires conv.toInt(Strip(timestepLine)) == Some(t)
    requires !IsMarker(timestepLine) && !IsHeader(timestepLine)
    requires forall m :: 0 <= m < |records| ==> |records[m]| == FieldCount
    requires forall m :: 0 <= m < |records| ==> ShowsBack(records[m], show, conv)
    ensures var r := Extract(DumpText(timestepLine, records, show), conv);
            r.Ok? && r.value.timeStep == Some(t)
            && (forall j :: 0 <= j < FieldCount ==> |r.value.Column(j)| == |records|)
            && (forall j, m :: 0 <= j < FieldCount && 0 <= m < |records| ==> r.value.Column(j)[m] == records[m][j])
  {
    var lines := DumpText(timestepLine, records, show);
    assert lines[0] == TimestepMarker + "\n" && lines[1] == timestepLine + "\n" && lines[2] == AtomsHeaderLine + "\n";
    assert IsMarker(lines[0]) by { assert lines[0][..|TimestepMarker|] == TimestepMarker; }
    assert IsHeader(lines[2]) by { assert lines[2][..|AtomsMarker|] == AtomsMarker; }
    NewlineKeepsKind(timestepLine);
    StripIgnoresTrailingSpace(timestepLine, '\n');
    assert forall i :: 0 <= i < |records| ==> lines[3 + i] == RecordLine(records[i], show);
    ParsesBack(lines, t, records, show, conv);
  }

  /** One atom at rest at the origin, written as the lines `ITEM: TIMESTEP\n`, `7\n`, the
      atoms header and one record line with every value shown as `0`, parses back to timestep 7 and a zero in every list. */
  lemma RoundTripExample(conv: Conversions)
    requires conv.toInt("7") == Some(7) && conv.toFloat("0") == Some(0.0)
    ensures Extract(DumpText("7", [seq(FieldCount, j => 0.0)], v => "0"), conv)
            == Ok(Snapshot(Some(7), [0.0], [0.0], [0.0], [0.0], [0.0], [0.0], [0.0], [0.0], [0.0], [0.0]))
  {
    var zeros := seq(FieldCount, j => 0.0);
    var show := (v: real) => "0";
    assert Strip("7") == "7" by {
      assert !IsSpace("7"[0]);
      assert TrimLeft("7") == "7";
    }
    assert !IsMarker("7") && !IsHeader("7");
    assert ShowsBack(zeros, show, conv) by {
      assert !IsSpace("0"[0]);
    }
    RoundTrip(7, "7", [zeros], show, conv);
    var r := Extract(DumpText("7", [zeros], show), conv);
    var expected := Snapshot(Some(7), [0.0], [0.0], [0.0], [0.0], [0.0], [0.0], [0.0], [0.0], [0.0], [0.0]);
    forall j | 0 <= j < FieldCount
      ensures r.value.Column(j) == expected.Column(j)
    {
      assert r.value.Column(j)[0] == [zeros][0][j] == 0.0;
    }
    SnapshotExt(r.value, expected);
  }
}
