/** Where the window looks for `quser.exe` (`Utility.FindQuserPath`).

    The special folders, the `PATH` variable, `File.Exists` and
    `Path.Combine` belong to the machine and to .NET, so they are
    parameters: a folder triple, an optional string (the variable may be
    unset, which .NET reports as null), a predicate and a two-argument path
    joiner. */
module Utility {
  import opened Outcomes
  import opened Text

  const QuserExe: string := "quser.exe"

  /** The three special folders the search starts with. */
  datatype Folders = Folders(system: string, windows: string, systemX86: string)

  /** Why no path was returned: `PATH` is unset, so splitting it throws a
      NullReferenceException, or no candidate exists (FileNotFoundException). */
  datatype LocateError = PathUnset | NotFound(message: string)

  const NotFoundMessage: string :=
    "quser.exe not found. Please ensure it is available in your PATH or System32 directory."

  /** The fixed candidates, in the order tried: the System folder,
      `Windows\sysnative`, the SystemX86 folder. The three-part
      `Path.Combine` is the two-part one applied twice. */
  function SystemCandidates(folders: Folders, combine: (string, string) -> string): (r: seq<string>)
    ensures |r| == 3
    ensures r[0] == combine(folders.system, QuserExe)
    ensures r[1] == combine(combine(folders.windows, "sysnative"), QuserExe)
    ensures r[2] == combine(folders.systemX86, QuserExe)
  {
    [combine(folders.system, QuserExe),
     combine(combine(folders.windows, "sysnative"), QuserExe),
     combine(folders.systemX86, QuserExe)]
  }

  /** The `PATH` entries, split on ';' with empty entries kept, each joined
      with the file name, left to right. */
  function PathCandidates(pathVar: string, combine: (string, string) -> string): (r: seq<string>)
    ensures |r| == |Split(pathVar, ";")|
    ensures forall k :: 0 <= k < |r| ==> r[k] == combine(Split(pathVar, ";")[k], QuserExe)
  {
    var entries := Split(pathVar, ";");
    seq(|entries|, k requires 0 <= k < |entries| => combine(entries[k], QuserExe))
  }

  /** `cands[i]` is the first candidate that exists. */
  predicate FirstHit(cands: seq<string>, fileExists: string -> bool, i: nat) {
    i < |cands| && fileExists(cands[i]) && forall k :: 0 <= k < i ==> !fileExists(cands[k])
  }

  /** No candidate exists. */
  predicate NoHit(cands: seq<string>, fileExists: string -> bool) {
    forall k :: 0 <= k < |cands| ==> !fileExists(cands[k])
  }

  /** `FindQuserPath`: the first existing candidate, the system ones before
      any from `PATH`; `PATH` is read only when no system candidate exists. */
  method FindQuserPath(folders: Folders, pathVar: Option<string>, fileExists: string -> bool,
                       combine: (string, string) -> string) returns (r: Result<string, LocateError>)
    ensures var sys := SystemCandidates(folders, combine);
            && (forall i: nat :: FirstHit(sys, fileExists, i) ==> r == Success(sys[i]))
            && (NoHit(sys, fileExists) && pathVar.None? ==> r == Failure(PathUnset))
    ensures var sys := SystemCandidates(folders, combine);
            NoHit(sys, fileExists) && pathVar.Some? ==>
              var path := PathCandidates(pathVar.value, combine);
              && (forall i: nat :: FirstHit(path, fileExists, i) ==> r == Success(path[i]))
              && (NoHit(path, fileExists) ==> r == Failure(NotFound(NotFoundMessage)))
  {
    var sys := SystemCandidates(folders, combine);
    var i := 0;
    while i < |sys|
      invariant 0 <= i <= |sys|
      invariant forall k :: 0 <= k < i ==> !fileExists(sys[k])
    {
      if fileExists(sys[i]) {
        assert FirstHit(sys, fileExists, i);
        return Success(sys[i]);
      }
      i := i + 1;
    }
    if pathVar.None? {
      return Failure(PathUnset);
    }
    var entries := Split(pathVar.value, ";");
    ghost var path := PathCandidates(pathVar.value, combine);
    var j := 0;
    while j < |entries|
      invariant 0 <= j <= |entries|
      invariant forall k :: 0 <= k < j ==> !fileExists(path[k])
    {
      var fullPath := combine(entries[j], QuserExe);
      if fileExists(fullPath) {
        assert FirstHit(path, fileExists, j);
        return Success(fullPath);
      }
      j := j + 1;
    }
    return Failure(NotFound(NotFoundMessage));
  }

  /** Every list of candidates has a first hit or none at all. */
  lemma {:induction false} FirstHitOrNone(cands: seq<string>, fileExists: string -> bool)
    ensures NoHit(cands, fileExists) || exists i: nat :: FirstHit(cands, fileExists, i)
    decreases |cands|
  {
    if cands != [] && !fileExists(cands[0]) {
      FirstHitOrNone(cands[1..], fileExists);
      if !NoHit(cands[1..], fileExists) {
        var i: nat :| FirstHit(cands[1..], fileExists, i);
        forall k | 0 <= k < i + 1 ensures !fileExists(cands[k]) {
          if k > 0 { assert cands[k] == cands[1..][k - 1]; }
        }
        assert FirstHit(cands, fileExists, i + 1);
      } else {
        forall k | 0 <= k < |cands| ensures !fileExists(cands[k]) {
          if k > 0 { assert cands[k] == cands[1..][k - 1]; }
        }
      }
    } else if cands != [] {
      assert FirstHit(cands, fileExists, 0);
    }
  }
}
