/**
 * `etotal` and `load_all_data` (lammps_utils.py:39-57): each dump file is parsed in turn; a
 * file whose per-atom energies sum to exactly zero is skipped, every other one contributes its
 * timestep with that sum and its list of x velocities. A parse failure is not caught and ends
 * the whole call.
 */
module Aggregator {
  import opened Wrappers
  import opened DumpParser

  /** `sum(e_vec)`: the values added left to right, starting from zero. */
  function ETotal(e: seq<real>): real
  {
    if |e| == 0 then 0.0 else ETotal(e[..|e| - 1]) + e[|e| - 1]
  }

  /** Summing a concatenation is adding the two sums. */
  lemma {:induction false} ETotalAppend(a: seq<real>, b: seq<real>)
    ensures ETotal(a + b) == ETotal(a) + ETotal(b)
    decreases |b|
  {
    if |b| == 0 {
      assert a + b == a;
    } else {
      var b' := b[..|b| - 1];
      assert (a + b)[..|a + b| - 1] == a + b';
      assert (a + b)[|a + b| - 1] == b[|b| - 1];
      ETotalAppend(a, b');
    }
  }

  /** Energies that are all zero (in particular no atoms at all) sum to zero. */
  lemma {:induction false} ETotalZeros(e: seq<real>)
    requires forall i :: 0 <= i < |e| ==> e[i] == 0.0
    ensures ETotal(e) == 0.0
    decreases |e|
  {
    if |e| > 0 {
      ETotalZeros(e[..|e| - 1]);
    }
  }

  /** Energies that are all positive have a positive sum unless there are none. */
  lemma {:induction false} ETotalPositive(e: seq<real>)
    requires forall i :: 0 <= i < |e| ==> e[i] > 0.0
    ensures |e| > 0 ==> ETotal(e) > 0.0
    ensures |e| == 0 ==> ETotal(e) == 0.0
    decreases |e|
  {
    if |e| > 0 {
      ETotalPositive(e[..|e| - 1]);
    }
  }

  /** One entry of `results`: the file's timestep and its total energy. */
  datatype Entry = Entry(timeStep: Option<int>, totalEnergy: real)

  /** The pair `load_all_data` returns: `results` and `all_velocities`. */
  datatype Aggregate = Aggregate(results: seq<Entry>, velocities: seq<seq<real>>)

  /** A parsed file is skipped when its energies sum to exactly zero. */
  predicate Contributes(s: Snapshot) {
    ETotal(s.etot) != 0.0
  }

  /** What the loop has built after going through `snaps` in order. */
  function Accepted(snaps: seq<Snapshot>): (a: Aggregate)
    ensures |a.results| == |a.velocities| <= |snaps|
  {
    if |snaps| == 0 then Aggregate([], [])
    else
      var a := Accepted(snaps[..|snaps| - 1]);
      var s := snaps[|snaps| - 1];
      if !Contributes(s) then a
      else Aggregate(a.results + [Entry(s.timeStep, ETotal(s.etot))], a.velocities + [s.vx])
  }

  /** One more file extends both lists by its entry when it contributes, and changes nothing
      otherwise. */
  lemma AcceptedSnoc(snaps: seq<Snapshot>, s: Snapshot)
    ensures Accepted(snaps + [s])
            == if Contributes(s) then Aggregate(Accepted(snaps).results + [Entry(s.timeStep, ETotal(s.etot))],
                                               Accepted(snaps).velocities + [s.vx])
               else Accepted(snaps)
  {
    assert (snaps + [s])[..|snaps|] == snaps;
  }

  /** The positions below `n` of the files that contribute, in increasing order. */
  function Contributing(snaps: seq<Snapshot>, n: nat): (idx: seq<nat>)
    requires n <= |snaps|
    ensures forall m :: 0 <= m < |idx| ==> idx[m] < n
  {
    if n == 0 then []
    else Contributing(snaps, n - 1) + (if Contributes(snaps[n - 1]) then [n - 1] else [])
  }

  /** `Contributing` lists every contributing file below `n` and no other, in increasing order. */
  lemma {:induction false} ContributingSpec(snaps: seq<Snapshot>, n: nat)
    requires n <= |snaps|
    ensures var idx := Contributing(snaps, n);
            (forall k :: k in idx <==> 0 <= k < n && Contributes(snaps[k]))
            && (forall m, m' :: 0 <= m < m' < |idx| ==> idx[m] < idx[m'])
    decreases n
  {
    if n > 0 {
      ContributingSpec(snaps, n - 1);
      var prev := Contributing(snaps, n - 1);
      if Contributes(snaps[n - 1]) {
        var idx := prev + [n - 1];
        assert Contributing(snaps, n) == idx;
        forall m, m' | 0 <= m < m' < |idx|
          ensures idx[m] < idx[m']
        {
          if m' < |prev| {
            assert idx[m] == prev[m] && idx[m'] == prev[m'];
          } else {
            assert idx[m] == prev[m] < n - 1 == idx[m'];
          }
        }
      } else {
        assert Contributing(snaps, n) == prev;
      }
    }
  }

  /** Entry `m` of both lists comes from the `m`-th contributing file, in input order: its
      timestep and energy sum in `results`, its x velocities in `all_velocities`. */
  lemma {:induction false} AcceptedSpec(snaps: seq<Snapshot>)
    ensures var a, idx := Accepted(snaps), Contributing(snaps, |snaps|);
            |a.results| == |idx| && |a.velocities| == |idx|
            && (forall m :: 0 <= m < |idx| ==>
                  a.results[m] == Entry(snaps[idx[m]].timeStep, ETotal(snaps[idx[m]].etot))
                  && a.velocities[m] == snaps[idx[m]].vx)
    decreases |snaps|
  {
    if |snaps| == 0 {
      assert Accepted(snaps) == Aggregate([], []);
      assert Contributing(snaps, 0) == [];
    } else {
      var n := |snaps| - 1;
      var init := snaps[..n];
      AcceptedSpec(init);
      ContributingPrefix(snaps, init, n);
      var a, prev, s := Accepted(init), Contributing(snaps, n), snaps[n];
      assert snaps == init + [s];
      AcceptedSnoc(init, s);
      if Contributes(s) {
        var idx := prev + [n];
        assert Contributing(snaps, n + 1) == idx;
        var a' := Aggregate(a.results + [Entry(s.timeStep, ETotal(s.etot))], a.velocities + [s.vx]);
        assert Accepted(snaps) == a';
        forall m | 0 <= m < |idx|
          ensures a'.results[m] == Entry(snaps[idx[m]].timeStep, ETotal(snaps[idx[m]].etot))
          ensures a'.velocities[m] == snaps[idx[m]].vx
        {
          if m < |prev| {
            assert idx[m] == prev[m] && init[prev[m]] == snaps[prev[m]];
          }
        }
      } else {
        assert Contributing(snaps, n + 1) == prev + [] == prev;
        assert Accepted(snaps) == a;
      }
    }
  }

  /** `Contributing` below `n` looks only at the first `n` files. */
  lemma {:induction false} ContributingPrefix(snaps: seq<Snapshot>, init: seq<Snapshot>, n: nat)
    requires n <= |init| <= |snaps| && init == snaps[..|init|]
    ensures Contributing(snaps, n) == Contributing(init, n)
    decreases n
  {
    if n > 0 {
      ContributingPrefix(snaps, init, n - 1);
      assert snaps[n - 1] == init[n - 1];
    }
  }

  /** Going through two batches of files one after the other builds the concatenation of what
      each batch builds on its own. */
  lemma {:induction false} AcceptedAppend(a: seq<Snapshot>, b: seq<Snapshot>)
    ensures Accepted(a + b).results == Accepted(a).results + Accepted(b).results
    ensures Accepted(a + b).velocities == Accepted(a).velocities + Accepted(b).velocities
    decreases |b|
  {
    if |b| == 0 {
      assert a + b == a;
    } else {
      var b' := b[..|b| - 1];
      assert (a + b)[..|a + b| - 1] == a + b';
      assert (a + b)[|a + b| - 1] == b[|b| - 1];
      AcceptedAppend(a, b');
    }
  }

  /** A file with energies 2 and 4 is kept with total 6; a file without atoms, whose sum is
      zero, is dropped. */
  lemma AcceptedExample(kept: Snapshot, empty: Snapshot)
    requires kept.etot == [2.0, 4.0] && empty.etot == []
    ensures Accepted([kept, empty]) == Aggregate([Entry(kept.timeStep, 6.0)], [kept.vx])
  {
    assert [kept, empty][..1] == [kept];
    assert [kept][..0] == [];
    assert [2.0, 4.0][..1] == [2.0];
    assert [2.0][..0] == [];
  }

  /** The parsed contents of every file, in order; defined when every file parses. */
  function ParsedAll(files: seq<seq<string>>, conv: Conversions): (snaps: seq<Snapshot>)
    requires forall k :: 0 <= k < |files| ==> Extract(files[k], conv).Ok?
    ensures |snaps| == |files|
    ensures forall k :: 0 <= k < |files| ==> snaps[k] == Extract(files[k], conv).value
  {
    if |files| == 0 then []
    else ParsedAll(files[..|files| - 1], conv) + [Extract(files[|files| - 1], conv).value]
  }

  /** One more parsed file extends `ParsedAll` by its snapshot. */
  lemma ParsedAllStep(files: seq<seq<string>>, k: nat, conv: Conversions)
    requires k < |files| && forall k' :: 0 <= k' <= k ==> Extract(files[k'], conv).Ok?
    ensures ParsedAll(files[..k + 1], conv) == ParsedAll(files[..k], conv) + [Extract(files[k], conv).value]
  {
    assert files[..k + 1][..k] == files[..k];
  }

  /** One pass of the loop of `load_all_data`: the file at `k` extends what was built from the
      files before it by its entry when its sum is not zero, and leaves it unchanged otherwise. */
  lemma LoadStep(files: seq<seq<string>>, k: nat, conv: Conversions, a: Aggregate)
    requires k < |files| && forall k' :: 0 <= k' <= k ==> Extract(files[k'], conv).Ok?
    requires a == Accepted(ParsedAll(files[..k], conv))
    ensures var s := Extract(files[k], conv).value;
            Accepted(ParsedAll(files[..k + 1], conv))
            == if ETotal(s.etot) == 0.0 then a
               else Aggregate(a.results + [Entry(s.timeStep, ETotal(s.etot))], a.velocities + [s.vx])
  {
    ParsedAllStep(files, k, conv);
    AcceptedSnoc(ParsedAll(files[..k], conv), Extract(files[k], conv).value);
  }

  /** `load_all_data(dump_files)`, each file given by its lines. It fails with the error of the
      first file that does not parse; otherwise it returns what `Accepted` builds from all the
      parsed files. */
  method LoadAllData(files: seq<seq<string>>, conv: Conversions) returns (r: Result<Aggregate, ParseError>)
    ensures r.Ok? <==> forall k :: 0 <= k < |files| ==> Extract(files[k], conv).Ok?
    ensures r.Ok? ==> r.value == Accepted(ParsedAll(files, conv))
    ensures r.Err? ==> exists k :: 0 <= k < |files| && Extract(files[k], conv) == Err(r.error)
                                   && forall k' :: 0 <= k' < k ==> Extract(files[k'], conv).Ok?
  {
    var results: seq<Entry> := [];
    var velocities: seq<seq<real>> := [];
    for k := 0 to |files|
      invariant forall k' :: 0 <= k' < k ==> Extract(files[k'], conv).Ok?
      invariant Aggregate(results, velocities) == Accepted(ParsedAll(files[..k], conv))
    {
      var parsed := ExtractData(files[k], conv);
      if parsed.Err? {
        return Err(parsed.error);
      }
      var s := parsed.value;
      LoadStep(files, k, conv, Aggregate(results, velocities));
      if ETotal(s.etot) == 0.0 {
        continue;
      }
      var totalEnergy := ETotal(s.etot);
      results := results + [Entry(s.timeStep, totalEnergy)];
      velocities := velocities + [s.vx];
    }
    assert files[..|files|] == files;
    return Ok(Aggregate(results, velocities));
  }
}
