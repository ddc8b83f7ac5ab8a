/**
 * `get_dump_files` (lammps_utils.py:42-43): the names in a directory listing that start with a
 * prefix, each joined to the directory, in listing order. The listing and the path join are
 * parameters.
 */
module FileDiscovery {
  import opened Text

  /** The default file-name prefix of the dump files. */
  const DefaultPrefix := "argon.lj."

  /** `get_dump_files(directory, prefix)` over the names `os.listdir(directory)` gave. */
  function GetDumpFiles(directory: string, listing: seq<string>, join: (string, string) -> string,
                        prefix: string): (paths: seq<string>)
    ensures |paths| <= |listing|
  {
    if |listing| == 0 then []
    else
      var last := listing[|listing| - 1];
      GetDumpFiles(directory, listing[..|listing| - 1], join, prefix)
        + (if StartsWith(last, prefix) then [join(directory, last)] else [])
  }

  /** The positions below `n` of the names that start with the prefix, in increasing order. */
  function Matching(listing: seq<string>, prefix: string, n: nat): (idx: seq<nat>)
    requires n <= |listing|
    ensures forall m :: 0 <= m < |idx| ==> idx[m] < n && StartsWith(listing[idx[m]], prefix)
    ensures forall k :: 0 <= k < n && StartsWith(listing[k], prefix) ==> k in idx
    ensures forall m, m' :: 0 <= m < m' < |idx| ==> idx[m] < idx[m']
  {
    if n == 0 then []
    else Matching(listing, prefix, n - 1) + (if StartsWith(listing[n - 1], prefix) then [n - 1] else [])
  }

  /** `Matching` below `n` looks only at the first `n` names. */
  lemma {:induction false} MatchingPrefix(listing: seq<string>, init: seq<string>, prefix: string, n: nat)
    requires n <= |init| <= |listing| && init == listing[..|init|]
    ensures Matching(listing, prefix, n) == Matching(init, prefix, n)
    decreases n
  {
    if n > 0 {
      MatchingPrefix(listing, init, prefix, n - 1);
      assert listing[n - 1] == init[n - 1];
    }
  }

  /** Path `m` is the directory joined with the `m`-th matching name, matches kept in listing
      order: one path per matching name and none for any other. */
  lemma {:induction false} GetDumpFilesSpec(directory: string, listing: seq<string>,
                                            join: (string, string) -> string, prefix: string)
    ensures var paths, idx := GetDumpFiles(directory, listing, join, prefix), Matching(listing, prefix, |listing|);
            |paths| == |idx| && forall m :: 0 <= m < |idx| ==> paths[m] == join(directory, listing[idx[m]])
    decreases |listing|
  {
    if |listing| > 0 {
      var init := listing[..|listing| - 1];
      GetDumpFilesSpec(directory, init, join, prefix);
      MatchingPrefix(listing, init, prefix, |init|);
    }
  }

  /** A path is returned exactly when it is the join of some listed name with the prefix. */
  lemma GetDumpFilesMembers(directory: string, listing: seq<string>, join: (string, string) -> string,
                            prefix: string, p: string)
    ensures p in GetDumpFiles(directory, listing, join, prefix) <==>
            exists k :: 0 <= k < |listing| && StartsWith(listing[k], prefix) && p == join(directory, listing[k])
  {
    var paths, idx := GetDumpFiles(directory, listing, join, prefix), Matching(listing, prefix, |listing|);
    GetDumpFilesSpec(directory, listing, join, prefix);
    if p in paths {
      var m :| 0 <= m < |paths| && paths[m] == p;
      assert StartsWith(listing[idx[m]], prefix);
    }
    if exists k :: 0 <= k < |listing| && StartsWith(listing[k], prefix) && p == join(directory, listing[k]) {
      var k :| 0 <= k < |listing| && StartsWith(listing[k], prefix) && p == join(directory, listing[k]);
      assert k in idx;
      var m :| 0 <= m < |idx| && idx[m] == k;
      assert paths[m] == p;
    }
  }

  /** Listing two batches of names one after the other gives the paths of the first batch
      followed by those of the second. */
  lemma {:induction false} GetDumpFilesAppend(directory: string, a: seq<string>, b: seq<string>,
                                              join: (string, string) -> string, prefix: string)
    ensures GetDumpFiles(directory, a + b, join, prefix)
            == GetDumpFiles(directory, a, join, prefix) + GetDumpFiles(directory, b, join, prefix)
    decreases |b|
  {
    if |b| == 0 {
      assert a + b == a;
    } else {
      var b' := b[..|b| - 1];
      assert (a + b)[..|a + b| - 1] == a + b';
      assert (a + b)[|a + b| - 1] == b[|b| - 1];
      GetDumpFilesAppend(directory, a, b', join, prefix);
    }
  }

  /** A listing without repeated names, joined so that no two listed names give the same path,
      gives no repeated paths. */
  lemma NoDuplicatePaths(directory: string, listing: seq<string>, join: (string, string) -> string,
                         prefix: string)
    requires forall k, k' :: 0 <= k < k' < |listing| ==> listing[k] != listing[k']
    requires forall k, k' :: 0 <= k < |listing| && 0 <= k' < |listing| && join(directory, listing[k]) == join(directory, listing[k'])
                             ==> listing[k] == listing[k']
    ensures var paths := GetDumpFiles(directory, listing, join, prefix);
            forall m, m' :: 0 <= m < m' < |paths| ==> paths[m] != paths[m']
  {
    var paths, idx := GetDumpFiles(directory, listing, join, prefix), Matching(listing, prefix, |listing|);
    GetDumpFilesSpec(directory, listing, join, prefix);
    forall m, m' | 0 <= m < m' < |paths|
      ensures paths[m] != paths[m']
    {
      assert idx[m] < idx[m'];
      assert listing[idx[m]] != listing[idx[m']];
    }
  }

  /** With the default prefix, the dump files of a run are picked out of a listing that also
      holds its log, in listing order. */
  lemma DefaultPrefixExample(directory: string, join: (string, string) -> string)
    ensures GetDumpFiles(directory, ["argon.lj.100", "log.lammps", "argon.lj.200"], join, DefaultPrefix)
            == [join(directory, "argon.lj.100"), join(directory, "argon.lj.200")]
  {
    var listing := ["argon.lj.100", "log.lammps", "argon.lj.200"];
    assert StartsWith(listing[0], DefaultPrefix) by { assert listing[0][..9] == DefaultPrefix; }
    assert !StartsWith(listing[1], DefaultPrefix) by { assert listing[1][0] == 'l'; }
    assert StartsWith(listing[2], DefaultPrefix) by { assert listing[2][..9] == DefaultPrefix; }
    var g := (names: seq<string>) => GetDumpFiles(directory, names, join, DefaultPrefix);
    assert listing[..2] == [listing[0], listing[1]] && listing[..2][..1] == [listing[0]];
    assert [listing[0]][..0] == [];
    assert g([listing[0]]) == [join(directory, listing[0])];
    assert g(listing[..2]) == g([listing[0]]);
    assert g(listing) == g(listing[..2]) + [join(directory, listing[2])];
  }
}
