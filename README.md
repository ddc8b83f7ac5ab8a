# LAMMPS dump-file utilities, modelled in Dafny

`lammps_utils.py` reads the text dump files that a LAMMPS molecular-dynamics run writes for an
argon Lennard-Jones system, one file per timestep, and turns them into data for plotting:

- `extract_data` parses one dump file. It is a line-by-line state machine. A
  `ITEM: TIMESTEP` line says the next line holds the timestep. An `ITEM: ATOMS ...` header
  opens the per-atom section. Each following line is one atom record:
  `id type x y z vx vy vz fx fy fz c_etot`. The section ends at the first whitespace-only line
  or at the end of the file. The result is the timestep and ten parallel per-atom lists.
- `etotal` sums the per-atom energies.
- `get_dump_files` picks the file names of a directory listing that start with a prefix
  (`argon.lj.` by default) and joins each with the directory.
- `load_all_data` parses every file in order. It skips a file whose energies sum to exactly
  zero, and otherwise records `(timestep, total energy)` and the file's list of x velocities.
  A parse error ends the whole call.

The model has six modules:

- `Wrappers` holds the `Option` and `Result` types that stand for Python's `None` and exceptions.

- `Text` models the pieces of Python's `str` used: `isspace`, `strip`, `split()`, `startswith`.
- `DumpParser` models `extract_data`. `ExtractData` is the imperative loop, with the ten lists
  and the `atom_data_started` flag as local state. It is proved equal to a functional
  statement of the same loop (`Scan`, one `Step` per line). The theorem
  `ExtractMatchesReference` then proves `Scan` equal to a declarative description written
  without the state machine:
  - `End`: where the scan stops.
  - `AtomLines`: which lines are read as records.
  - `LastTimestep`: which timestep survives.
  - `NoFailure` and `ErrorAt`: which line raises, and with what error.
  - `Reference`: the resulting lists.
- `DumpParserProperties` proves, from that description, the behaviour the code promises:
  - the ten lists are parallel and aligned with the atom lines;
  - each field comes from a fixed token;
  - the failure cases;
  - the last-marker rule for the timestep;
  - the file is ignored after the terminating blank line;
  - a round trip: a file written from known values parses back to those values.
- `Aggregator` models `etotal` and `load_all_data`. `LoadAllData` is the imperative loop with
  its `continue`. It is proved against `Accepted`, which is built from the parsed files, and
  `AcceptedSpec` states which files contribute and in what order.
- `FileDiscovery` models `get_dump_files`.

Python's exceptions are values. `extract_data` returns `Result<Snapshot, ParseError>`:
- `TimestepMissing`: the `IndexError` of reading `data[i + 1]` after a final marker line.
- `TimestepNotInteger`: the `ValueError` of `int(...)`.
- `BadRecord(NotANumber)`: the `ValueError` of `float(...)`.
- `BadRecord(TooFewFields)`: the `IndexError` of reading `components[k]` on a short record.

### How a record line is read

The fields come from `list(map(float, line.split()[2:]))`. Every token after the second is
converted before any field is read, so a non-numeric token after the twelfth still raises
`ValueError`. Only the values of extra tokens are ignored (`ParseRecordSpec`).

An `ITEM: TIMESTEP` line met inside the atom section updates the timestep. Because of the
`if`/`elif` layout it then falls through to the record parse. A bare marker's two tokens make
it fail there (`BareMarkerInAtomSectionFails`), and so does any marker line with fewer than
twelve tokens (`MarkerInAtomSectionFails`).

## Model

| member | source | states |
|---|---|---|
| Text.TrimLeftSpec | lammps_utils.py:18 | the left part of `strip()` drops only whitespace and keeps a suffix that does not start with whitespace |
| Text.TrimRightSpec | lammps_utils.py:18 | the right part of `strip()` drops only whitespace and keeps a prefix that does not end with whitespace |
| Text.StripSpec | lammps_utils.py:18 | `strip()` is a slice of the line with only whitespace cut off either side, and it neither starts nor ends with whitespace |
| Text.WordLength | lammps_utils.py:25 | the length of the token of `split()` that starts the string: no longer than the string, and not zero when the string starts with a non-whitespace character; the rest is stated by `Text.WordLengthSpec` |
| Text.WordLengthSpec | lammps_utils.py:25 | a token of `split()` runs up to the first whitespace character: every character before that position is not whitespace, and the one at it is |
| Text.SplitWords | lammps_utils.py:25 | every token of `split()` is non-empty and free of whitespace |
| Text.BlankIffNoWords | lammps_utils.py:23 | `line.strip() == ""` holds exactly when every character is whitespace, and exactly when `split()` gives no tokens |
| Text.SplitWord | lammps_utils.py:25 | a single word splits into itself |
| Text.SplitUnwords | lammps_utils.py:25 | splitting words joined by spaces gives back the words |
| Text.IsSpace | lammps_utils.py:18-25 | the whitespace that `strip()` and `split()` drop: `str.isspace` on the ISO-8859-1 code points; used by `Text.StripSpec` and `Text.SplitWords` |
| Text.StartsWith | lammps_utils.py:17-19 | `str.startswith`; used by `DumpParser.IsMarker`, `DumpParser.IsHeader` and `FileDiscovery.GetDumpFiles` |
| Text.IsBlank | lammps_utils.py:23 | `line.strip() == ""`; its contract is stated by `Text.BlankIffNoWords` |
| Text.TrimLeftSnocSpace | lammps_utils.py:18 | the left part of `strip()` keeps a whitespace character appended to a line that is not all whitespace, and drops it otherwise |
| Text.StripIgnoresTrailingSpace | lammps_utils.py:7-18 | the newline that `readlines` keeps at the end of a line does not change what `strip()` gives |
| Text.Strip | lammps_utils.py:18 | `str.strip()`; its contract is stated by `Text.StripSpec` |
| Text.Split | lammps_utils.py:25 | `str.split()`; its contract is stated by `Text.SplitWords`, `Text.BlankIffNoWords`, `Text.SplitUnwords` and `Text.SplitIgnoresTrailingSpace` |
| Text.WordLengthSnocSpace | lammps_utils.py:25 | a whitespace character added at the end does not lengthen the first token |
| Text.SplitIgnoresTrailingSpace | lammps_utils.py:7 | the newline that `readlines` keeps at the end of a line adds no token |
| DumpParser.IsMarker | lammps_utils.py:17 | `line.startswith("ITEM: TIMESTEP")`; its contract is stated by `DumpParser.MarkerFacts` |
| DumpParser.IsHeader | lammps_utils.py:19 | `line.startswith("ITEM: ATOMS")`; its contract is stated by `DumpParser.MarkerFacts` |
| DumpParser.NextLine | lammps_utils.py:18 | `data[i + 1]`, or nothing past the last line; what reading it gives is stated by `DumpParserProperties.BadMarkerFails` and `DumpParserProperties.LastTimestepIsLastMarker` |
| DumpParser.TrailingTokens | lammps_utils.py:25 | `line.split()[2:]`; its contract is stated by `DumpParser.ParseRecordSpec` |
| DumpParser.MarkerFacts | lammps_utils.py:17-23 | a timestep marker line is never an atoms header, and neither kind of line is whitespace only |
| DumpParser.ParseFloats | lammps_utils.py:25 | `list(map(float, tokens))`; its contract is stated by `DumpParser.ParseFloatsSpec` |
| DumpParser.ParseFloatsSpec | lammps_utils.py:25 | `list(map(float, tokens))` succeeds exactly when every token converts, and then keeps order and length |
| DumpParser.ParseRecord | lammps_utils.py:25-35 | a record that reads gives exactly ten values |
| DumpParser.ParseRecordSpec | lammps_utils.py:25-35 | a line reads as a record exactly when it has at least twelve tokens and every token after the second converts; field `j` (counting from 0) is token `j + 3` (counting from 1); `NotANumber` is raised exactly when some token after the second does not convert |
| DumpParser.Append | lammps_utils.py:26-35 | appending a record keeps the timestep and adds field `j` at the end of list `j`, for all ten lists |
| DumpParser.Step | lammps_utils.py:17-35 | one iteration of the loop; what a sequence of iterations computes is stated by `DumpParser.ScanStep` and `DumpParser.ExtractMatchesReference` |
| DumpParser.Scan | lammps_utils.py:16-37 | the loop from line `i` on; its contract is stated by `DumpParser.ScanReachesPrefix` and `DumpParserProperties.ScanIgnoresTail` |
| DumpParser.ScanUnfold | lammps_utils.py:16-35 | the loop from line `i` is the iteration on line `i` followed by the loop from line `i + 1`, unless that iteration leaves the loop |
| DumpParser.Extract | lammps_utils.py:5-37 | the result of `extract_data`; its contract is stated by `DumpParser.ExtractMatchesReference` and the lemmas of `DumpParserProperties` |
| DumpParser.ExtractData | lammps_utils.py:5-37 | the loop returns what `Scan` computes; it succeeds exactly when no line before the end of the scan raises, and then returns the declarative reference snapshot |
| DumpParser.ExtractOutcome | lammps_utils.py:5-37 | the parse succeeds exactly when no line before the stopping point raises, and then returns the reference snapshot |
| DumpParser.StartedNext | lammps_utils.py:19-22 | the atom section has started after line `n` exactly when it had started before, or line `n` is an atoms header |
| DumpParser.EndFrom | lammps_utils.py:16-24 | the search for the stopping line skips no stopping line and finds one unless it reaches the end of the input |
| DumpParser.End | lammps_utils.py:16-24 | the scan stops at the first whitespace-only line after an atoms header, or at the end of the input |
| DumpParser.AtomLines | lammps_utils.py:19-25 | the lines read as records are, in strictly increasing order, exactly the lines after an atoms header that are not headers themselves |
| DumpParser.AllParseInit | lammps_utils.py:25-35 | when every listed atom line reads as a record, so does every line of the list without its last entry |
| DumpParser.FieldColumnLength | lammps_utils.py:26-35 | the column of field `j` has one entry per listed atom line |
| DumpParser.FieldColumnAt | lammps_utils.py:26-35 | entry `m` of the column of field `j` is field `j` of the `m`-th listed atom line |
| DumpParser.FieldColumnSpec | lammps_utils.py:26-35 | the column of field `j` has one entry per atom line, holding that line's field `j` |
| DumpParser.AtomLinesParse | lammps_utils.py:22-25 | when no line raises, every atom line reads as a record |
| DumpParser.FieldColumnSnoc | lammps_utils.py:26-35 | one more atom line adds its field at the end of the column |
| DumpParser.FieldColumnStep | lammps_utils.py:22-35 | line `k` adds its field `j` to the column exactly when it is an atom line |
| DumpParser.AdvanceColumn | lammps_utils.py:17-35 | after line `k`, the timestep is the last-marker timestep and list `j` grows by the record's field `j` when line `k` is an atom line, and by nothing otherwise |
| DumpParser.ReferenceColumn | lammps_utils.py:9-35 | after `n` lines without failure, the snapshot holds the last-marker timestep and, in list `j`, field `j` of each atom line in file order |
| DumpParser.SnapshotExt | lammps_utils.py:37 | two results with the same timestep and the same ten lists are equal |
| DumpParser.ScanStep | lammps_utils.py:16-35 | one iteration on a line that does not raise moves from the reference state of `k` lines to that of `k + 1` lines |
| DumpParser.ScanReachesPrefix | lammps_utils.py:16-35 | while no line raises, the loop state after `n` lines is the reference state of those lines |
| DumpParser.FirstFailure | lammps_utils.py:16-25 | if some line raises, there is a first such line |
| DumpParser.ExtractMatchesReference | lammps_utils.py:5-37 | the parse succeeds exactly when no line before the stopping point raises; on success it returns the reference snapshot; otherwise it raises the error of the first failing line |
| DumpParserProperties.ParallelLists | lammps_utils.py:25-35 | on success the ten lists have equal length: the number of atom lines read |
| DumpParserProperties.RecordsAligned | lammps_utils.py:19-35 | on success, entry `m` of list `j` (counting from 0) is token `j + 3` (counting from 1) of the `m`-th atom line; the atom lines are exactly the non-header lines after a header and before the stop, in file order; each has at least twelve tokens, and every token after its second converts |
| DumpParserProperties.BadAtomLineFails | lammps_utils.py:22-25 | an atom line before the stop with fewer than twelve tokens, or with a token after the second that does not convert, makes the parse fail |
| DumpParserProperties.TimestepMarkerTokens | lammps_utils.py:17 | the marker line, with or without its newline, splits into the two tokens `ITEM:` and `TIMESTEP`, leaving no tokens after the first two |
| DumpParserProperties.MarkerInAtomSectionFails | lammps_utils.py:17-25 | a timestep marker with fewer than twelve tokens inside the atom section makes the parse fail |
| DumpParserProperties.BareMarkerInAtomSectionFails | lammps_utils.py:17-25 | the bare marker line, with or without its newline, inside the atom section makes the parse fail |
| DumpParserProperties.BadMarkerFails | lammps_utils.py:17-18 | a timestep marker on the last line, or one followed by a line that is not an integer, makes the parse fail when the scan reaches it |
| DumpParserProperties.LastTimestepIsLastMarker | lammps_utils.py:9-18 | the tracked timestep is `None` when there is no marker, and otherwise the value read after the last marker |
| DumpParserProperties.TimestepIsLastMarker | lammps_utils.py:9-18 | on success the timestep is `None` when no marker comes before the stop, and otherwise the integer on the line after the last marker, which exists and converts |
| DumpParserProperties.EndOfInputReturns | lammps_utils.py:16-37 | reaching the end of the input inside the atom section, with no failure, returns the reference snapshot normally |
| DumpParserProperties.ScanIgnoresTail | lammps_utils.py:22-24 | two inputs that agree up to and including the terminating blank line scan alike |
| DumpParserProperties.StepAtStop | lammps_utils.py:22-24 | at the terminating blank line inside the atom section, the iteration leaves the loop and returns the snapshot built so far |
| DumpParserProperties.StepKeepsStarted | lammps_utils.py:19-22 | an iteration that does not leave the loop sets the atom-section flag to whether an atoms header has been read up to and including that line |
| DumpParserProperties.AfterBlankIgnored | lammps_utils.py:22-24 | replacing everything after the terminating blank line, later markers included, does not change the result |
| DumpParserProperties.RecordLineTokens | lammps_utils.py:25 | a newline-terminated record line written from values that `show` writes as tokens `float()` reads back splits into its id, its type and its ten value tokens, each converting back to its value |
| DumpParserProperties.NewlineKeepsKind | lammps_utils.py:17-19 | a line that ends with a newline is a marker or a header only when the line without it is |
| DumpParserProperties.RecordLineKind | lammps_utils.py:17-23 | a written record line is neither a marker, nor a header, nor blank |
| DumpParserProperties.RecordLineReads | lammps_utils.py:25-35 | a record line written from values that read back is neither a marker, a header nor blank, and reads back as exactly its ten values |
| DumpParserProperties.HoldsRecordsAppend | lammps_utils.py:26-35 | appending record `m` to a snapshot that holds the first `m` records gives one that holds the first `m + 1` |
| DumpParserProperties.ScanRecords | lammps_utils.py:22-35 | from the first record line on, the loop reads every remaining record and returns |
| DumpParserProperties.ScanPreamble | lammps_utils.py:16-22 | a marker, a timestep line and an atoms header leave the loop in the atom section with the timestep set and nothing recorded |
| DumpParserProperties.ParsesBack | lammps_utils.py:5-37 | a file made of a marker, a timestep line, a header and newline-terminated record lines parses to that timestep and those records |
| DumpParserProperties.RoundTripExample | lammps_utils.py:5-37 | the file `ITEM: TIMESTEP\n`, `7\n`, the atoms header and one record line whose values are all `0`, each line ending with a newline, parses to timestep 7 and a single zero in each of the ten lists |
| DumpParserProperties.RoundTrip | lammps_utils.py:5-37 | a dump file as `readlines` gives it, every line ending with a newline, written from a timestep line and per-atom values, each written as a token that `float()` reads back, parses back to exactly that timestep and those values, each list in record order |
| Aggregator.ETotal | lammps_utils.py:39-40 | `sum(e_vec)`; its contract is stated by `Aggregator.ETotalAppend`, `Aggregator.ETotalZeros` and `Aggregator.ETotalPositive` |
| Aggregator.ETotalAppend | lammps_utils.py:39-40 | the sum of a concatenation is the sum of the sums |
| Aggregator.ETotalZeros | lammps_utils.py:39-40 | all-zero energies, or no atoms at all, sum to zero |
| Aggregator.ETotalPositive | lammps_utils.py:39-40 | positive energies sum to a positive value, unless there are none |
| Aggregator.Accepted | lammps_utils.py:45-57 | `results` and `all_velocities` have equal length, no greater than the number of files |
| Aggregator.AcceptedSnoc | lammps_utils.py:49-55 | one more file adds its `(timestep, sum)` entry and its velocities when its sum is not zero, and changes nothing otherwise |
| Aggregator.Contributing | lammps_utils.py:51-52 | the listed positions of contributing files are below the bound |
| Aggregator.Contributes | lammps_utils.py:51 | a file is kept when `etotal(etot) == 0` is false; its contract is stated by `Aggregator.ContributingSpec` and `Aggregator.AcceptedSnoc` |
| Aggregator.ContributingSpec | lammps_utils.py:51-52 | a file position is listed exactly when that file's energy sum is not zero, in increasing order |
| Aggregator.ContributingPrefix | lammps_utils.py:49-52 | which of the first `n` files contribute depends only on those files |
| Aggregator.AcceptedSpec | lammps_utils.py:49-55 | entry `m` of both lists comes from the `m`-th contributing file in input order: its timestep and its energy sum, and its x velocities |
| Aggregator.AcceptedAppend | lammps_utils.py:49-57 | processing two batches of files in turn gives the concatenation of the results of each batch |
| Aggregator.AcceptedExample | lammps_utils.py:49-55 | a file with energies 2 and 4 is kept with total 6, and a file without atoms is dropped |
| Aggregator.ParsedAll | lammps_utils.py:49-50 | the parsed contents of every file, one per file, in order |
| Aggregator.ParsedAllStep | lammps_utils.py:49-50 | one more parsed file extends the parsed list by its snapshot |
| Aggregator.LoadStep | lammps_utils.py:49-55 | one more parsed file adds its `(timestep, sum)` entry and its velocities to the accumulated lists when its sum is not zero, and leaves them unchanged otherwise |
| Aggregator.LoadAllData | lammps_utils.py:45-57 | the call succeeds exactly when every file parses, and then returns what `Accepted` builds from the parsed files; otherwise it raises the error of the first file that fails |
| FileDiscovery.GetDumpFiles | lammps_utils.py:42-43 | the result is no longer than the listing |
| FileDiscovery.Matching | lammps_utils.py:43 | the positions of names that start with the prefix, in increasing order, covering all of them |
| FileDiscovery.MatchingPrefix | lammps_utils.py:43 | which of the first `n` names match depends only on those names |
| FileDiscovery.GetDumpFilesSpec | lammps_utils.py:42-43 | path `m` is the directory joined with the `m`-th matching name, in listing order, one per match |
| FileDiscovery.GetDumpFilesMembers | lammps_utils.py:42-43 | a path is returned exactly when it is the join of a listed name that starts with the prefix |
| FileDiscovery.GetDumpFilesAppend | lammps_utils.py:42-43 | listing two batches of names one after the other gives the paths of the first batch followed by those of the second |
| FileDiscovery.NoDuplicatePaths | lammps_utils.py:42-43 | a listing without repeated names, joined so that no two listed names give the same path, gives no repeated paths |
| FileDiscovery.DefaultPrefixExample | lammps_utils.py:42-43 | with the default prefix `argon.lj.`, a listing of two dump files and a log gives the two dump-file paths in listing order |

## Left out

- `main.py` is not part of this model: it is plotting and histogram glue that consumes the parsed data.
- Opening and decoding a file (`open(..., encoding='ISO-8859-1')`, `readlines`): a file is given as its sequence of lines, newline characters included. Missing files and decoding errors are not modelled.
- `os.listdir` and `os.path.join`: the listing is a parameter and the join is an abstract function.
- Python's `int()` and `float()`: they are the abstract partial conversions of `Conversions`. Which strings they accept is not modelled.
- Floating-point arithmetic: values are `real`s, and `sum` is exact left-to-right addition of reals. The exact `== 0` test in `load_all_data` is kept as written, with no reasoning about rounding.
- `np.array(vx)`: the x velocities are stored as a sequence.
- Whitespace is `str.isspace` on the 256 code points that ISO-8859-1 decoding can produce; other Unicode whitespace cannot occur in such text.
- DumpParser.ExtractData: describes the file by its lines. The index of the offending line in a `ParseError` is extra information; Python's exceptions carry only a message.
- Aggregator.LoadAllData: takes the files' contents rather than their paths, since opening files is left out.
