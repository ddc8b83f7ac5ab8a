/**
 * The dump-record parser `extract_data` of lammps_utils.py: a line-by-line state machine that
 * turns the lines of one simulation dump file into a timestep and ten parallel per-atom lists.
 *
 * The file's lines are given (opening and decoding the file is not modelled), and Python's
 * `int(...)` and `float(...)` are the abstract partial conversions of `Conversions`.
 */
module DumpParser {
  import opened Wrappers
  import opened Text

  /** The line prefix announcing that the next line holds the timestep. */
  const TimestepMarker := "ITEM: TIMESTEP"
  /** The line prefix of the header that opens the per-atom section. */
  const AtomsMarker := "ITEM: ATOMS"
  /** The numeric fields read from each atom line: x y z vx vy vz fx fy fz etot. */
  const FieldCount := 10

  /** Python's `int(s)` and `float(s)`: `None` where the conversion raises `ValueError`. */
  datatype Conversions = Conversions(toInt: string -> Option<int>, toFloat: string -> Option<real>)

  /** The value `extract_data` returns: the timestep and the ten per-atom lists. */
  datatype Snapshot = Snapshot(
    timeStep: Option<int>,
    x: seq<real>, y: seq<real>, z: seq<real>,
    vx: seq<real>, vy: seq<real>, vz: seq<real>,
    fx: seq<real>, fy: seq<real>, fz: seq<real>,
    etot: seq<real>)
  {
    /** The j-th per-atom list, in the order x, y, z, vx, vy, vz, fx, fy, fz, etot. */
    function Column(j: nat): seq<real>
      requires j < FieldCount
    {
      match j
      case 0 => x
      case 1 => y
      case 2 => z
      case 3 => vx
      case 4 => vy
      case 5 => vz
      case 6 => fx
      case 7 => fy
      case 8 => fz
      case _ => etot
    }
  }

  /** The snapshot before any line is read: no timestep, ten empty lists. */
  const EmptySnapshot := Snapshot(None, [], [], [], [], [], [], [], [], [], [])

  /** Why an atom line could not be read: `float` raised `ValueError`, or indexing the
      converted fields raised `IndexError`. */
  datatype RecordError = NotANumber | TooFewFields

  /** The exception that aborts `extract_data`; `line` is the 0-based index of the offending line
      (for the two timestep errors, the index of the marker line). */
  datatype ParseError =
    | TimestepMissing(line: nat)             // `data[i + 1]` past the end: IndexError
    | TimestepNotInteger(line: nat)          // `int(...)` of the next line: ValueError
    | BadRecord(line: nat, reason: RecordError)

  predicate IsMarker(line: string) { StartsWith(line, TimestepMarker) }

  predicate IsHeader(line: string) { StartsWith(line, AtomsMarker) }

  /** No line is both a timestep marker and an atoms header, and neither is whitespace only. */
  lemma MarkerFacts(line: string)
    ensures IsMarker(line) ==> !IsHeader(line) && !IsBlank(line)
    ensures IsHeader(line) ==> !IsBlank(line)
  {
    if IsMarker(line) {
      assert line[6] == line[..|TimestepMarker|][6] == 'T';
      assert line[..|AtomsMarker|][6] == 'T';
      assert line[..|AtomsMarker|] != AtomsMarker;
      assert line[0] == 'I';
      BlankIffNoWords(line);
    } else if IsHeader(line) {
      assert line[0] == line[..|AtomsMarker|][0] == 'I';
      BlankIffNoWords(line);
    }
  }

  /** `list(map(float, tokens))`: every token converted, in order, or `None` when one fails. */
  function ParseFloats(tokens: seq<string>, conv: Conversions): Option<seq<real>>
  {
    if |tokens| == 0 then Some([])
    else
      match conv.toFloat(tokens[0])
      case None => None
      case Some(v) =>
        var rest := ParseFloats(tokens[1..], conv);
        if rest.None? then None else Some([v] + rest.value)
  }

  /** The conversion succeeds exactly when every token converts, and then keeps order and length. */
  lemma {:induction false} ParseFloatsSpec(tokens: seq<string>, conv: Conversions)
    ensures ParseFloats(tokens, conv).Some? <==> forall i :: 0 <= i < |tokens| ==> conv.toFloat(tokens[i]).Some?
    ensures ParseFloats(tokens, conv).Some? ==>
              |ParseFloats(tokens, conv).value| == |tokens|
              && forall i :: 0 <= i < |tokens| ==> ParseFloats(tokens, conv).value[i] == conv.toFloat(tokens[i]).value
    decreases |tokens|
  {
    if |tokens| > 0 {
      ParseFloatsSpec(tokens[1..], conv);
      assert forall i :: 1 <= i < |tokens| ==> tokens[i] == tokens[1..][i - 1];
    }
  }

  /** `line.split()[2:]`: the tokens after the atom id and the atom type. */
  function TrailingTokens(line: string): seq<string>
  {
    var tokens := Split(line);
    if |tokens| >= 2 then tokens[2..] else []
  }

  /** One atom line read as `components = list(map(float, line.split()[2:]))` followed by the
      reads `components[0]` ... `components[9]`: the ten values, or the error that is raised. */
  function ParseRecord(line: string, conv: Conversions): (r: Result<seq<real>, RecordError>)
    ensures r.Ok? ==> |r.value| == FieldCount
  {
    match ParseFloats(TrailingTokens(line), conv)
    case None => Err(NotANumber)
    case Some(components) =>
      if |components| < FieldCount then Err(TooFewFields) else Ok(components[..FieldCount])
  }

  /** An atom line is read exactly when it has at least ten tokens after the id and the type
      and every one of those tokens converts; token `j + 3` (1-based) then becomes field `j`,
      and neither the first two tokens nor the values of the tokens after the twelfth matter.
      `float` is applied to all trailing tokens before any is indexed, so a non-numeric token
      anywhere after the second one gives `ValueError`, even on a short line. */
  lemma ParseRecordSpec(line: string, conv: Conversions)
    ensures ParseRecord(line, conv).Ok? <==>
              |Split(line)| >= 2 + FieldCount
              && forall i :: 2 <= i < |Split(line)| ==> conv.toFloat(Split(line)[i]).Some?
    ensures ParseRecord(line, conv).Ok? ==>
              forall j :: 0 <= j < FieldCount ==>
                ParseRecord(line, conv).value[j] == conv.toFloat(Split(line)[j + 2]).value
    ensures ParseRecord(line, conv) == Err(NotANumber) <==>
              exists i :: 2 <= i < |Split(line)| && conv.toFloat(Split(line)[i]).None?
  {
    var trailing := TrailingTokens(line);
    var tokens := Split(line);
    ParseFloatsSpec(trailing, conv);
    assert forall i :: 2 <= i < |tokens| ==> tokens[i] == trailing[i - 2];
    if ParseFloats(trailing, conv).None? {
      var i :| 0 <= i < |trailing| && conv.toFloat(trailing[i]).None?;
      assert tokens[i + 2] == trailing[i];
    }
  }

  /** The snapshot with one more atom appended to each of the ten lists. */
  function Append(s: Snapshot, v: seq<real>): (r: Snapshot)
    requires |v| == FieldCount
    ensures r.timeStep == s.timeStep
    ensures forall j :: 0 <= j < FieldCount ==> r.Column(j) == s.Column(j) + [v[j]]
  {
    Snapshot(s.timeStep,
      s.x + [v[0]], s.y + [v[1]], s.z + [v[2]],
      s.vx + [v[3]], s.vy + [v[4]], s.vz + [v[5]],
      s.fx + [v[6]], s.fy + [v[7]], s.fz + [v[8]],
      s.etot + [v[9]])
  }

  /** What one iteration of the loop leads to: the next iteration with a new state, or leaving
      the loop with a result (the `break`, or an exception). */
  datatype Flow = Continue(acc: Snapshot, started: bool) | Exit(result: Result<Snapshot, ParseError>)

  /** `data[i + 1]` where it exists. */
  function NextLine(lines: seq<string>, i: nat): Option<string>
    requires i < |lines|
  {
    if i + 1 < |lines| then Some(lines[i + 1]) else None
  }

  /** One iteration of the loop of `extract_data` on line `i`, whose successor is `next`, with the
      snapshot built so far and the `atom_data_started` flag. */
  function Step(i: nat, line: string, next: Option<string>, acc: Snapshot, started: bool, conv: Conversions)
    : Flow
  {
    if IsMarker(line) && next.None? then Exit(Err(TimestepMissing(i)))
    else if IsMarker(line) && conv.toInt(Strip(next.value)).None? then Exit(Err(TimestepNotInteger(i)))
    else if !IsMarker(line) && IsHeader(line) then Continue(acc, true)
    else
      // a marker line updates the timestep and then falls through to the atom section test
      var acc' := if IsMarker(line) then acc.(timeStep := conv.toInt(Strip(next.value))) else acc;
      if !started then Continue(acc', started)
      else if IsBlank(line) then Exit(Ok(acc'))
      else
        match ParseRecord(line, conv)
        case Err(e) => Exit(Err(BadRecord(i, e)))
        case Ok(v) => Continue(Append(acc', v), started)
  }

  /** The loop of `extract_data` from line `i` to the end. */
  function Scan(lines: seq<string>, i: nat, acc: Snapshot, started: bool, conv: Conversions)
    : Result<Snapshot, ParseError>
    requires i <= |lines|
    decreases |lines| - i
  {
    if i == |lines| then Ok(acc)
    else
      match Step(i, lines[i], NextLine(lines, i), acc, started, conv)
      case Continue(acc', started') => Scan(lines, i + 1, acc', started', conv)
      case Exit(r) => r
  }

  /** One iteration of `Scan` taken apart: the step on line `i`, then the rest of the scan. */
  lemma ScanUnfold(lines: seq<string>, i: nat, acc: Snapshot, started: bool, conv: Conversions)
    requires i < |lines|
    ensures Scan(lines, i, acc, started, conv)
            == match Step(i, lines[i], NextLine(lines, i), acc, started, conv)
               case Continue(acc', started') => Scan(lines, i + 1, acc', started', conv)
               case Exit(r) => r
  {
  }

  /** What `extract_data` returns for the lines of one file. */
  function Extract(lines: seq<string>, conv: Conversions): Result<Snapshot, ParseError>
  {
    Scan(lines, 0, EmptySnapshot, false, conv)
  }

  /** `extract_data`: the for-loop over the lines, appending to the ten lists in place. */
  method ExtractData(lines: seq<string>, conv: Conversions) returns (r: Result<Snapshot, ParseError>)
    ensures r == Extract(lines, conv)
    ensures r.Ok? <==> NoFailure(lines, End(lines), conv)
    ensures r.Ok? ==> r.value == Reference(lines, End(lines), conv)
  {
    ExtractOutcome(lines, conv);
    var timeStep: Option<int> := None;
    var x, y, z: seq<real> := [], [], [];
    var vx, vy, vz: seq<real> := [], [], [];
    var fx, fy, fz: seq<real> := [], [], [];
    var etot: seq<real> := [];
    var atomDataStarted := false;
    var i := 0;
    while i < |lines|
      invariant 0 <= i <= |lines|
      invariant Extract(lines, conv)
        == Scan(lines, i, Snapshot(timeStep, x, y, z, vx, vy, vz, fx, fy, fz, etot), atomDataStarted, conv)
    {
      var line := lines[i];
      if StartsWith(line, TimestepMarker) {
        if i + 1 == |lines| {
          return Err(TimestepMissing(i));
        }
        var parsed := conv.toInt(Strip(lines[i + 1]));
        if parsed.None? {
          return Err(TimestepNotInteger(i));
        }
        timeStep := parsed;
      } else if StartsWith(line, AtomsMarker) {
        atomDataStarted := true;
        i := i + 1;
        continue;
      }
      if atomDataStarted {
        if IsBlank(line) {
          break;
        }
        var parsed := ParseFloats(TrailingTokens(line), conv);
        if parsed.None? {
          return Err(BadRecord(i, NotANumber));
        }
        var components := parsed.value;
        if |components| < FieldCount {
          return Err(BadRecord(i, TooFewFields));
        }
        x := x + [components[0]];
        y := y + [components[1]];
        z := z + [components[2]];
        vx := vx + [components[3]];
        vy := vy + [components[4]];
        vz := vz + [components[5]];
        fx := fx + [components[6]];
        fy := fy + [components[7]];
        fz := fz + [components[8]];
        etot := etot + [components[9]];
      }
      i := i + 1;
    }
    return Ok(Snapshot(timeStep, x, y, z, vx, vy, vz, fx, fy, fz, etot));
  }

  // ---------------------------------------------------------------------------------------
  // A declarative description of the same parse, without the state machine.
  // ---------------------------------------------------------------------------------------

  /** The `atom_data_started` flag as it stands when line `n` is reached: some earlier line
      is an atoms header. */
  predicate Started(lines: seq<string>, n: nat)
    requires n <= |lines|
  {
    exists k :: 0 <= k < n && IsHeader(lines[k])
  }

  lemma StartedNext(lines: seq<string>, n: nat)
    requires n < |lines|
    ensures Started(lines, n + 1) <==> Started(lines, n) || IsHeader(lines[n])
  {
    if Started(lines, n + 1) && !IsHeader(lines[n]) {
      var k :| 0 <= k < n + 1 && IsHeader(lines[k]);
      assert k < n;
    }
  }

  /** The scan stops at line `k` (the `break`): it is whitespace only and inside the atom section. */
  predicate StopsAt(lines: seq<string>, k: nat)
    requires k < |lines|
  {
    Started(lines, k) && IsBlank(lines[k])
  }

  /** The search behind `End`: the first blank line from `i` on that is met inside the atom
      section, or the end of the input. */
  function EndFrom(lines: seq<string>, i: nat): (e: nat)
    requires i <= |lines|
    ensures i <= e <= |lines|
    ensures forall k :: i <= k < e ==> !StopsAt(lines, k)
    ensures e < |lines| ==> StopsAt(lines, e)
    decreases |lines| - i
  {
    if i == |lines| then i
    else if StopsAt(lines, i) then i
    else EndFrom(lines, i + 1)
  }

  /** Where the scan stops: the first whitespace-only line after an atoms header (the `break`),
      or the end of the input. */
  function End(lines: seq<string>): (e: nat)
    ensures e <= |lines|
    ensures forall k :: 0 <= k < e ==> !StopsAt(lines, k)
    ensures e < |lines| ==> StopsAt(lines, e)
  {
    EndFrom(lines, 0)
  }

  /** Line `k` is read as an atom record when it comes after an atoms header and is not
      itself one (before `End`, such a line is never blank). */
  predicate IsAtomLine(lines: seq<string>, k: nat)
    requires k < |lines|
  {
    Started(lines, k) && !IsHeader(lines[k])
  }

  /** The indices below `n` of the lines read as atom records, in file order. */
  function AtomLines(lines: seq<string>, n: nat): (idx: seq<nat>)
    requires n <= |lines|
    ensures forall m :: 0 <= m < |idx| ==> idx[m] < n && IsAtomLine(lines, idx[m])
    ensures forall k :: 0 <= k < n && IsAtomLine(lines, k) ==> k in idx
    ensures forall m, m' :: 0 <= m < m' < |idx| ==> idx[m] < idx[m']
  {
    if n == 0 then []
    else AtomLines(lines, n - 1) + (if IsAtomLine(lines, n - 1) then [n - 1] else [])
  }

  /** A timestep marker at `k` fails when it is the last line or the next line is no integer. */
  predicate MarkerFails(lines: seq<string>, k: nat, conv: Conversions)
    requires k < |lines|
  {
    IsMarker(lines[k]) && (k + 1 == |lines| || conv.toInt(Strip(lines[k + 1])).None?)
  }

  /** An atom line fails when its fields cannot be read. */
  predicate RecordFails(lines: seq<string>, k: nat, conv: Conversions)
    requires k < |lines|
  {
    IsAtomLine(lines, k) && ParseRecord(lines[k], conv).Err?
  }

  /** No line below `n` raises. */
  predicate NoFailure(lines: seq<string>, n: nat, conv: Conversions)
    requires n <= |lines|
  {
    forall k :: 0 <= k < n ==> !MarkerFails(lines, k, conv) && !RecordFails(lines, k, conv)
  }

  /** The integer after the last timestep marker below `n` (`None` if there is none). */
  function LastTimestep(lines: seq<string>, n: nat, conv: Conversions): Option<int>
    requires n <= |lines|
  {
    if n == 0 then None
    else if IsMarker(lines[n - 1]) && n < |lines| then conv.toInt(Strip(lines[n]))
    else LastTimestep(lines, n - 1, conv)
  }

  /** Every listed line exists and reads as a record. */
  predicate AllParse(lines: seq<string>, idx: seq<nat>, conv: Conversions) {
    forall m :: 0 <= m < |idx| ==> idx[m] < |lines| && ParseRecord(lines[idx[m]], conv).Ok?
  }

  /** The field `j` of each listed atom line, in the order listed. */
  function FieldColumn(lines: seq<string>, idx: seq<nat>, j: nat, conv: Conversions): seq<real>
    requires j < FieldCount && AllParse(lines, idx, conv)
  {
    if |idx| == 0 then []
    else FieldColumn(lines, idx[..|idx| - 1], j, conv) + [ParseRecord(lines[idx[|idx| - 1]], conv).value[j]]
  }

  /** Dropping the last listed line keeps every other one readable. */
  lemma AllParseInit(lines: seq<string>, idx: seq<nat>, conv: Conversions)
    requires |idx| > 0 && AllParse(lines, idx, conv)
    ensures AllParse(lines, idx[..|idx| - 1], conv)
  {
    assert forall m :: 0 <= m < |idx| - 1 ==> idx[..|idx| - 1][m] == idx[m];
  }

  /** `FieldColumn` has one entry per listed line. */
  lemma {:induction false} FieldColumnLength(lines: seq<string>, idx: seq<nat>, j: nat, conv: Conversions)
    requires j < FieldCount && AllParse(lines, idx, conv)
    ensures |FieldColumn(lines, idx, j, conv)| == |idx|
    decreases |idx|
  {
    if |idx| > 0 {
      AllParseInit(lines, idx, conv);
      FieldColumnLength(lines, idx[..|idx| - 1], j, conv);
    }
  }

  /** Entry `m` of `FieldColumn` is field `j` of the `m`-th listed line. */
  lemma {:induction false} FieldColumnAt(lines: seq<string>, idx: seq<nat>, j: nat, conv: Conversions, m: nat)
    requires j < FieldCount && AllParse(lines, idx, conv) && m < |idx|
    ensures |FieldColumn(lines, idx, j, conv)| == |idx|
            && FieldColumn(lines, idx, j, conv)[m] == ParseRecord(lines[idx[m]], conv).value[j]
    decreases |idx|
  {
    var init := idx[..|idx| - 1];
    AllParseInit(lines, idx, conv);
    FieldColumnLength(lines, idx, j, conv);
    FieldColumnLength(lines, init, j, conv);
    var col, last := FieldColumn(lines, init, j, conv), ParseRecord(lines[idx[|idx| - 1]], conv).value[j];
    assert FieldColumn(lines, idx, j, conv) == col + [last];
    if m < |init| {
      FieldColumnAt(lines, init, j, conv, m);
      assert init[m] == idx[m];
      assert FieldColumn(lines, idx, j, conv)[m] == col[m];
    } else {
      assert FieldColumn(lines, idx, j, conv)[m] == last;
    }
  }

  /** `FieldColumn` has one entry per listed line: its field `j`. */
  lemma FieldColumnSpec(lines: seq<string>, idx: seq<nat>, j: nat, conv: Conversions)
    requires j < FieldCount && AllParse(lines, idx, conv)
    ensures |FieldColumn(lines, idx, j, conv)| == |idx|
    ensures forall m :: 0 <= m < |idx| ==>
              FieldColumn(lines, idx, j, conv)[m] == ParseRecord(lines[idx[m]], conv).value[j]
  {
    FieldColumnLength(lines, idx, j, conv);
    forall m | 0 <= m < |idx|
      ensures FieldColumn(lines, idx, j, conv)[m] == ParseRecord(lines[idx[m]], conv).value[j]
    {
      FieldColumnAt(lines, idx, j, conv, m);
    }
  }

  /** The snapshot made of the first `n` lines when none of them raises, one line at a time;
      `ReferenceColumn` states what it holds. */
  function Reference(lines: seq<string>, n: nat, conv: Conversions): Snapshot
    requires n <= |lines| && NoFailure(lines, n, conv)
  {
    if n == 0 then EmptySnapshot
    else
      assert !RecordFails(lines, n - 1, conv);
      Advance(lines, n - 1, Reference(lines, n - 1, conv), conv)
  }

  /** The snapshot after line `k`, given the one before it: the timestep after the last marker
      so far and, for an atom line, its ten fields appended. */
  function Advance(lines: seq<string>, k: nat, s: Snapshot, conv: Conversions): Snapshot
    requires k < |lines| && (IsAtomLine(lines, k) ==> ParseRecord(lines[k], conv).Ok?)
  {
    var t := s.(timeStep := LastTimestep(lines, k + 1, conv));
    if IsAtomLine(lines, k) then Append(t, ParseRecord(lines[k], conv).value) else t
  }

  /** The error raised by a failing line `k`. */
  function ErrorAt(lines: seq<string>, k: nat, conv: Conversions): ParseError
    requires k < |lines| && (MarkerFails(lines, k, conv) || RecordFails(lines, k, conv))
  {
    if IsMarker(lines[k]) && k + 1 == |lines| then TimestepMissing(k)
    else if IsMarker(lines[k]) && conv.toInt(Strip(lines[k + 1])).None? then TimestepNotInteger(k)
    else BadRecord(k, ParseRecord(lines[k], conv).error)
  }

  // ---------------------------------------------------------------------------------------
  // The state machine computes the declarative description.
  // ---------------------------------------------------------------------------------------

  /** Two snapshots with the same timestep and the same ten lists are equal. */
  lemma SnapshotExt(a: Snapshot, b: Snapshot)
    requires a.timeStep == b.timeStep
    requires forall j :: 0 <= j < FieldCount ==> a.Column(j) == b.Column(j)
    ensures a == b
  {
    assert a.x == a.Column(0) == b.Column(0) == b.x;
    assert a.y == a.Column(1) == b.Column(1) == b.y;
    assert a.z == a.Column(2) == b.Column(2) == b.z;
    assert a.vx == a.Column(3) == b.Column(3) == b.vx;
    assert a.vy == a.Column(4) == b.Column(4) == b.vy;
    assert a.vz == a.Column(5) == b.Column(5) == b.vz;
    assert a.fx == a.Column(6) == b.Column(6) == b.fx;
    assert a.fy == a.Column(7) == b.Column(7) == b.fy;
    assert a.fz == a.Column(8) == b.Column(8) == b.fz;
    assert a.etot == a.Column(9) == b.Column(9) == b.etot;
  }

  /** Advancing over line `k` extends list `j` by field `j` of an atom line, and by nothing otherwise. */
  lemma AdvanceColumn(lines: seq<string>, k: nat, s: Snapshot, j: nat, conv: Conversions)
    requires k < |lines| && (IsAtomLine(lines, k) ==> ParseRecord(lines[k], conv).Ok?) && j < FieldCount
    ensures Advance(lines, k, s, conv).timeStep == LastTimestep(lines, k + 1, conv)
    ensures Advance(lines, k, s, conv).Column(j)
              == s.Column(j) + if IsAtomLine(lines, k) then [ParseRecord(lines[k], conv).value[j]] else []
  {
    var t := s.(timeStep := LastTimestep(lines, k + 1, conv));
    assert t.Column(j) == s.Column(j);
  }

  /** When none of the first `n` lines raises, their atom lines all read as records. */
  lemma AtomLinesParse(lines: seq<string>, n: nat, conv: Conversions)
    requires n <= |lines| && NoFailure(lines, n, conv)
    ensures AllParse(lines, AtomLines(lines, n), conv)
  {
    var idx := AtomLines(lines, n);
    assert forall m :: 0 <= m < |idx| ==> !RecordFails(lines, idx[m], conv);
  }

  /** Listing one more line adds its field `j` at the end of the column. */
  lemma FieldColumnSnoc(lines: seq<string>, prev: seq<nat>, k: nat, j: nat, conv: Conversions)
    requires j < FieldCount && AllParse(lines, prev + [k], conv)
    ensures AllParse(lines, prev, conv) && k < |lines| && ParseRecord(lines[k], conv).Ok?
    ensures FieldColumn(lines, prev + [k], j, conv) == FieldColumn(lines, prev, j, conv) + [ParseRecord(lines[k], conv).value[j]]
  {
    var idx := prev + [k];
    assert forall m :: 0 <= m < |prev| ==> prev[m] == idx[m];
    assert idx[|idx| - 1] == k;
    assert idx[..|idx| - 1] == prev;
  }

  /** Line `k` adds its field `j` to the column exactly when it is an atom line. */
  lemma FieldColumnStep(lines: seq<string>, k: nat, j: nat, conv: Conversions)
    requires k < |lines| && j < FieldCount && AllParse(lines, AtomLines(lines, k + 1), conv)
    ensures AllParse(lines, AtomLines(lines, k), conv)
    ensures IsAtomLine(lines, k) ==> ParseRecord(lines[k], conv).Ok?
    ensures FieldColumn(lines, AtomLines(lines, k + 1), j, conv)
            == FieldColumn(lines, AtomLines(lines, k), j, conv)
               + if IsAtomLine(lines, k) then [ParseRecord(lines[k], conv).value[j]] else []
  {
    var prev := AtomLines(lines, k);
    if IsAtomLine(lines, k) {
      assert AtomLines(lines, k + 1) == prev + [k];
      FieldColumnSnoc(lines, prev, k, j, conv);
    } else {
      assert AtomLines(lines, k + 1) == prev + [];
      assert prev + [] == prev;
    }
  }

  /** The reference snapshot of the first `n` lines holds the timestep after the last marker
      among them and, as list `j`, field `j` of each of their atom lines in file order. */
  lemma {:induction false} ReferenceColumn(lines: seq<string>, n: nat, j: nat, conv: Conversions)
    requires n <= |lines| && NoFailure(lines, n, conv) && j < FieldCount
    ensures AllParse(lines, AtomLines(lines, n), conv)
    ensures Reference(lines, n, conv).timeStep == LastTimestep(lines, n, conv)
    ensures Reference(lines, n, conv).Column(j) == FieldColumn(lines, AtomLines(lines, n), j, conv)
    decreases n
  {
    if n == 0 {
      assert Reference(lines, 0, conv) == EmptySnapshot;
      assert EmptySnapshot.Column(j) == [];
      assert AtomLines(lines, 0) == [];
      assert FieldColumn(lines, [], j, conv) == [];
    } else {
      var k := n - 1;
      assert NoFailure(lines, k, conv);
      ReferenceColumn(lines, k, j, conv);
      AtomLinesParse(lines, n, conv);
      FieldColumnStep(lines, k, j, conv);
      var before := Reference(lines, k, conv);
      assert Reference(lines, n, conv) == Advance(lines, k, before, conv);
      AdvanceColumn(lines, k, before, j, conv);
    }
  }

  /** One iteration on a line before `End` that does not raise moves from the reference
      state of the first `k` lines to that of the first `k + 1`. */
  lemma ScanStep(lines: seq<string>, k: nat, conv: Conversions)
    requires k < End(lines) && NoFailure(lines, k + 1, conv)
    ensures NoFailure(lines, k, conv)
    ensures Scan(lines, k, Reference(lines, k, conv), Started(lines, k), conv)
         == Scan(lines, k + 1, Reference(lines, k + 1, conv), Started(lines, k + 1), conv)
  {
    var line := lines[k];
    MarkerFacts(line);
    StartedNext(lines, k);
    ReferenceColumn(lines, k, 0, conv);
    assert !MarkerFails(lines, k, conv) && !RecordFails(lines, k, conv);
    assert Reference(lines, k + 1, conv) == Advance(lines, k, Reference(lines, k, conv), conv);
    assert !StopsAt(lines, k);
    assert Step(k, line, NextLine(lines, k), Reference(lines, k, conv), Started(lines, k), conv)
        == Continue(Reference(lines, k + 1, conv), Started(lines, k + 1));
  }

  /** While no line raises, the scan after `n` lines holds the reference snapshot of those lines. */
  lemma {:induction false} ScanReachesPrefix(lines: seq<string>, n: nat, conv: Conversions)
    requires n <= End(lines) && NoFailure(lines, n, conv)
    ensures Extract(lines, conv) == Scan(lines, n, Reference(lines, n, conv), Started(lines, n), conv)
    decreases n
  {
    if n == 0 {
      assert Reference(lines, 0, conv) == EmptySnapshot;
      assert !Started(lines, 0);
      assert Extract(lines, conv) == Scan(lines, 0, EmptySnapshot, false, conv);
    } else {
      var k := n - 1;
      ScanStep(lines, k, conv);
      ScanReachesPrefix(lines, k, conv);
      calc {
        Extract(lines, conv);
        Scan(lines, k, Reference(lines, k, conv), Started(lines, k), conv);
        Scan(lines, k + 1, Reference(lines, k + 1, conv), Started(lines, k + 1), conv);
      }
    }
  }

  /** A failure below `n` has a first failing line. */
  lemma {:induction false} FirstFailure(lines: seq<string>, n: nat, conv: Conversions) returns (k: nat)
    requires n <= |lines| && !NoFailure(lines, n, conv)
    ensures k < n && NoFailure(lines, k, conv)
    ensures MarkerFails(lines, k, conv) || RecordFails(lines, k, conv)
    decreases n
  {
    var w :| 0 <= w < n && (MarkerFails(lines, w, conv) || RecordFails(lines, w, conv));
    if NoFailure(lines, n - 1, conv) {
      assert w == n - 1;
      k := n - 1;
    } else {
      k := FirstFailure(lines, n - 1, conv);
    }
  }

  /** The parse succeeds exactly when no line before `End` raises, and then returns the
      reference snapshot of the lines before `End`; otherwise it raises the error of the first
      failing line. */
  lemma ExtractMatchesReference(lines: seq<string>, conv: Conversions)
    ensures Extract(lines, conv).Ok? <==> NoFailure(lines, End(lines), conv)
    ensures NoFailure(lines, End(lines), conv) ==> Extract(lines, conv) == Ok(Reference(lines, End(lines), conv))
    ensures !NoFailure(lines, End(lines), conv) ==>
              exists k :: 0 <= k < End(lines) && NoFailure(lines, k, conv)
                          && (MarkerFails(lines, k, conv) || RecordFails(lines, k, conv))
                          && Extract(lines, conv) == Err(ErrorAt(lines, k, conv))
  {
    var e := End(lines);
    if NoFailure(lines, e, conv) {
      ScanReachesPrefix(lines, e, conv);
      if e < |lines| {
        MarkerFacts(lines[e]);
      }
    } else {
      var k := FirstFailure(lines, e, conv);
      ScanReachesPrefix(lines, k, conv);
      MarkerFacts(lines[k]);
      assert !StopsAt(lines, k);
    }
  }

  /** The outcome of the parse in the two forms `ExtractData` promises: success exactly when no
      line before `End` raises, and then the reference snapshot. */
  lemma ExtractOutcome(lines: seq<string>, conv: Conversions)
    ensures Extract(lines, conv).Ok? <==> NoFailure(lines, End(lines), conv)
    ensures Extract(lines, conv).Ok? ==> Extract(lines, conv).value == Reference(lines, End(lines), conv)
  {
    ExtractMatchesReference(lines, conv);
  }
}
