/** Where a client's analysis runs live: `runs/<client>/<run id>/` with
    `staging` and `reports` inside. A path is its sequence of segments. */
module Paths {
  import opened Wrappers
  import opened Ascii
  import Sorting

  type Path = seq<string>

  /** The characters a sanitised name may hold. */
  predicate SafeChar(c: char)
  {
    IsAlnum(c) || c == '_' || c == '-'
  }

  const MaxNameLength: nat := 50

  /** `_sanitize_name`: spaces to underscores, anything unsafe dropped,
      at most 50 characters kept. */
  function SanitizeName(name: string): (r: string)
    ensures forall i :: 0 <= i < |r| ==> SafeChar(r[i])
    ensures |r| <= MaxNameLength && |r| <= |name|
    ensures var kept := KeepWhere(MapChar(name, ' ', '_'), SafeChar);
      |r| <= |kept| && r == kept[..|r|] && (|kept| <= MaxNameLength ==> r == kept)
  {
    var safe := KeepWhere(MapChar(name, ' ', '_'), SafeChar);
    if |safe| > MaxNameLength then safe[..MaxNameLength] else safe
  }

  /** Sanitising a sanitised name changes nothing. */
  lemma SanitizeIdempotent(name: string)
    ensures SanitizeName(SanitizeName(name)) == SanitizeName(name)
  {
    var r := SanitizeName(name);
    MapCharKeeps(r, ' ', '_');
  }

  /** A name of letters, digits and spaces keeps every character, with the
      spaces turned into underscores, when it is short enough. */
  lemma SpacesBecomeUnderscores(name: string)
    requires |name| <= MaxNameLength
    requires forall i :: 0 <= i < |name| ==> IsAlnum(name[i]) || name[i] == ' '
    ensures SanitizeName(name) == MapChar(name, ' ', '_')
  {
  }

  /** Path separators and dots never survive sanitising. */
  lemma SeparatorsDropped(name: string)
    ensures '/' !in SanitizeName(name) && '.' !in SanitizeName(name)
  {
  }

  /** `runs_dir`. */
  function RunsDir(base: Path): (p: Path)
    ensures |p| == |base| + 1 && p[..|base|] == base && p[|base|] == "runs"
  {
    base + ["runs"]
  }

  /** pathlib's `/` with a name holding no separator: the name becomes a
      new last segment, except that an empty name leaves the path as it
      is (`Path("runs") / ""` is `Path("runs")`). */
  function Join(p: Path, name: string): (r: Path)
    ensures |p| <= |r| && r[..|p|] == p
    ensures name == "" <==> r == p
    ensures name != "" ==> |r| == |p| + 1 && r[|p|] == name
  {
    if name == "" then p else p + [name]
  }

  /** `get_client_dir`. A name that sanitises to nothing gives the runs
      directory itself. */
  function ClientDir(base: Path, clientName: string): (p: Path)
    ensures |base| + 1 <= |p| && p[..|base| + 1] == RunsDir(base)
    ensures SanitizeName(clientName) == "" <==> p == RunsDir(base)
    ensures SanitizeName(clientName) != "" ==>
      |p| == |base| + 2 && p[|base| + 1] == SanitizeName(clientName) &&
      '/' !in p[|base| + 1] && '.' !in p[|base| + 1] && |p[|base| + 1]| <= MaxNameLength
  {
    var segment := SanitizeName(clientName);
    SanitizedSegment(clientName);
    var p := Join(RunsDir(base), segment);
    assert p[..|base| + 1] == RunsDir(base);
    p
  }

  lemma SanitizedSegment(name: string)
    ensures var s := SanitizeName(name);
      '/' !in s && '.' !in s && |s| <= MaxNameLength && s == SanitizeName(s)
  {
    var s := SanitizeName(name);
    SanitizeIdempotent(name);
    assert !SafeChar('/') && !SafeChar('.');
    assert forall i :: 0 <= i < |s| ==> SafeChar(s[i]);
  }

  /** `get_run_dir`; without a run id the clock's stamp is used, passed in
      here as `now`. */
  function RunDir(base: Path, clientName: string, runId: Option<string>, now: string): (p: Path)
    ensures var client := ClientDir(base, clientName);
      var id := runId.GetOr(now);
      |client| <= |p| && p[..|client|] == client && (id == "" <==> p == client) &&
      (id != "" ==> |p| == |client| + 1 && p[|client|] == id)
  {
    Join(ClientDir(base, clientName), runId.GetOr(now))
  }

  /** A named folder directly inside a run directory. */
  function RunFolder(base: Path, clientName: string, runId: string, folder: string): (p: Path)
    requires folder != ""
    ensures var run := RunDir(base, clientName, Some(runId), "");
      |p| == |run| + 1 && p[..|run|] == run && p[|run|] == folder
  {
    Join(RunDir(base, clientName, Some(runId), ""), folder)
  }

  /** `get_staging_dir`. */
  function StagingDir(base: Path, clientName: string, runId: string): Path
  {
    RunFolder(base, clientName, runId, "staging")
  }

  /** `get_reports_dir`. */
  function ReportsDir(base: Path, clientName: string, runId: string): Path
  {
    RunFolder(base, clientName, runId, "reports")
  }

  /** Every run directory lies below its client directory, one level down
      for a non-empty run id, and staging and reports are distinct siblings
      inside it. */
  lemma RunLayout(base: Path, clientName: string, runId: string)
    ensures var run := RunDir(base, clientName, Some(runId), "");
      var client := ClientDir(base, clientName);
      |client| <= |run| && run[..|client|] == client && (runId != "" ==> |run| == |client| + 1) &&
      |StagingDir(base, clientName, runId)| == |run| + 1 &&
      StagingDir(base, clientName, runId)[..|run|] == run &&
      ReportsDir(base, clientName, runId)[..|run|] == run &&
      StagingDir(base, clientName, runId) != ReportsDir(base, clientName, runId)
  {
    var run := RunDir(base, clientName, Some(runId), "");
    assert StagingDir(base, clientName, runId)[|run|] == "staging";
    assert ReportsDir(base, clientName, runId)[|run|] == "reports";
  }

  /** The directories of two clients coincide iff their names sanitise to
      the same text. */
  lemma ClientDirsCoincide(base: Path, a: string, b: string)
    ensures ClientDir(base, a) == ClientDir(base, b) <==> SanitizeName(a) == SanitizeName(b)
  {
    if ClientDir(base, a) == ClientDir(base, b) && SanitizeName(a) != "" {
      assert ClientDir(base, a)[|base| + 1] == SanitizeName(a);
    }
  }

  /** A client whose name sanitises to nothing keeps its runs directly in
      the runs directory, so its run "acme" is the directory of client
      "acme". */
  lemma UnsafeNameSharesRunsDir(base: Path, unsafe: string, run: string)
    requires unsafe == "!!!" && run == "acme"
    ensures RunDir(base, unsafe, Some(run), "") == ClientDir(base, run)
  {
    MapCharKeeps(unsafe, ' ', '_');
    assert SanitizeName(unsafe) == "" by {
      assert !SafeChar('!');
      assert KeepWhere(unsafe[2..], SafeChar) == "";
      assert KeepWhere(unsafe[1..], SafeChar) == "";
    }
    assert SanitizeName(run) == run by {
      SpacesBecomeUnderscores(run);
    }
  }

  /** `m` is a run name no other name exceeds. */
  predicate Latest(runs: seq<string>, m: string)
  {
    m in runs && forall x | x in runs :: StrLe(x, m)
  }

  /** `get_latest_run` over the listed run names: the largest name in
      string order (the first of the names sorted descending), or `None`
      when there are no runs. */
  function LatestRun(base: Path, clientName: string, runs: seq<string>): (r: Option<Path>)
    ensures r.None? <==> |runs| == 0
    ensures r.Some? ==> exists m :: Latest(runs, m) && r.value == RunDir(base, clientName, Some(m), "")
  {
    if |runs| == 0 then None
    else
      var sorted := Sorting.SortStrings(runs);
      var m := sorted[|sorted| - 1];
      assert m in multiset(runs);
      assert forall x | x in runs :: StrLe(x, m) by {
        forall x | x in runs
          ensures StrLe(x, m)
        {
          assert x in multiset(sorted);
          var i :| 0 <= i < |sorted| && sorted[i] == x;
          if i == |sorted| - 1 {
            StrLeRefl(x);
          }
        }
      }
      Some(RunDir(base, clientName, Some(m), ""))
  }

  lemma {:induction false} StrLeRefl(a: string)
    ensures StrLe(a, a)
  {
    StrLeTotal(a, a);
  }

  /** The latest run does not depend on the order of the listing. */
  lemma LatestRunIgnoresListingOrder(base: Path, clientName: string, runs: seq<string>, other: seq<string>)
    requires multiset(runs) == multiset(other)
    ensures LatestRun(base, clientName, runs) == LatestRun(base, clientName, other)
  {
    if |runs| > 0 {
      assert |other| > 0 by {
        assert |multiset(runs)| == |runs|;
      }
      var p := LatestRun(base, clientName, runs).value;
      var q := LatestRun(base, clientName, other).value;
      var m :| Latest(runs, m) && p == RunDir(base, clientName, Some(m), "");
      var n :| Latest(other, n) && q == RunDir(base, clientName, Some(n), "");
      assert m in multiset(other) && n in multiset(runs);
      StrLeAntisym(m, n);
    } else {
      assert |multiset(other)| == 0;
    }
  }
}
