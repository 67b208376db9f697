/** The pieces of train.py's start-up that compute something: recovering the
    GUID of a previous run from its folder name, the worker-count adjustment
    and the screen-resolution lookup. The directory listing is an input. */
module Train {
  import opened Common

  // ---------------------------------------------------------------------
  // get_previous_experiment_guid

  /** `f[:-(8+3)]`: the run name part of a folder entry. */
  function EntryRunName(f: string): string
  {
    DropLast(f, 11)
  }

  /** `f[-(8+1):-1]`: the eight GUID characters before the closing bracket. */
  function EntryGuid(f: string): string
  {
    SliceFromEnd(f, 9, 1)
  }

  /** The first entry of the listing whose run name part is `runName`. */
  function FirstMatch(listing: seq<string>, runName: string): Option<string>
  {
    if listing == [] then None
    else if EntryRunName(listing[0]) == runName then Some(EntryGuid(listing[0]))
    else FirstMatch(listing[1..], runName)
  }

  /** `get_previous_experiment_guid(path, run_name)`; `folderExists` is
      `os.path.exists(path)` and `listing` is `os.listdir(path)`. */
  function PreviousExperimentGuid(folderExists: bool, listing: seq<string>, runName: string): Option<string>
  {
    if !folderExists then None else FirstMatch(listing, runName)
  }

  /** The search yields the GUID part of the first matching entry, and None
      exactly when no entry matches. */
  lemma {:induction false} FirstMatchSpec(listing: seq<string>, runName: string)
    ensures FirstMatch(listing, runName).None? <==>
            (forall i :: 0 <= i < |listing| ==> EntryRunName(listing[i]) != runName)
    ensures FirstMatch(listing, runName).Some? ==>
            exists i :: 0 <= i < |listing| && EntryRunName(listing[i]) == runName
                     && (forall j :: 0 <= j < i ==> EntryRunName(listing[j]) != runName)
                     && FirstMatch(listing, runName) == Some(EntryGuid(listing[i]))
  {
    if listing != [] {
      var rest := listing[1..];
      FirstMatchSpec(rest, runName);
      if EntryRunName(listing[0]) == runName {
        assert FirstMatch(listing, runName) == Some(EntryGuid(listing[0]));
      } else {
        assert forall i :: 1 <= i < |listing| ==> listing[i] == rest[i - 1];
        if FirstMatch(rest, runName).Some? {
          var i :| 0 <= i < |rest| && EntryRunName(rest[i]) == runName
                   && (forall j :: 0 <= j < i ==> EntryRunName(rest[j]) != runName)
                   && FirstMatch(rest, runName) == Some(EntryGuid(rest[i]));
          assert listing[i + 1] == rest[i];
          assert forall j :: 0 <= j < i + 1 ==> EntryRunName(listing[j]) != runName;
        }
      }
    }
  }

  /** A missing experiment folder yields None whatever it would list. */
  lemma PreviousExperimentGuidMissing(listing: seq<string>, runName: string)
    ensures PreviousExperimentGuid(false, listing, runName) == None
  {
  }

  /** The log folder name of train.py, `"{} [{}]".format(run_name, guid[-8:])`,
      relative to the experiment folder. */
  function FolderEntryName(runName: string, guid: string): (f: string)
    ensures |guid| >= 8 ==> |f| == |runName| + 11
    ensures |guid| < 8 ==> |f| == |runName| + |guid| + 3
    ensures f[..|runName|] == runName && f[|runName|..|runName| + 2] == " ["
    ensures f[|f| - 1] == ']'
  {
    runName + " [" + TakeLast(guid, 8) + "]"
  }

  /** The folder name splits back into the run name and the last eight GUID
      characters. */
  lemma FolderEntryNameParts(runName: string, guid: string)
    requires |guid| >= 8
    ensures EntryRunName(FolderEntryName(runName, guid)) == runName
    ensures EntryGuid(FolderEntryName(runName, guid)) == guid[|guid| - 8..]
  {
    var f := FolderEntryName(runName, guid);
    assert f[..|runName|] == runName;
    assert f[|f| - 9..|f| - 1] == guid[|guid| - 8..];
  }

  /** Restoring a run finds the GUID (its last eight characters) that named
      its folder, when that folder is the first matching entry. */
  lemma {:induction false} GuidRoundTrip(before: seq<string>, after: seq<string>, runName: string, guid: string)
    requires |guid| >= 8
    requires forall i :: 0 <= i < |before| ==> EntryRunName(before[i]) != runName
    ensures PreviousExperimentGuid(true, before + [FolderEntryName(runName, guid)] + after, runName)
            == Some(guid[|guid| - 8..])
    decreases |before|
  {
    FolderEntryNameParts(runName, guid);
    var listing := before + [FolderEntryName(runName, guid)] + after;
    if before != [] {
      assert listing[1..] == before[1..] + [FolderEntryName(runName, guid)] + after;
      assert EntryRunName(listing[0]) != runName;
      GuidRoundTrip(before[1..], after, runName, guid);
    } else {
      assert listing[0] == FolderEntryName(runName, guid);
    }
  }

  // ---------------------------------------------------------------------
  // worker count

  /** The worker adjustment: a negative request means "one per CPU", reduced
      until it divides the number of agents. `cpuCount` is
      `multiprocessing.cpu_count()`. */
  method AdjustWorkers(workers: int, agents: int, cpuCount: int) returns (w: int)
    requires cpuCount >= 1
    ensures workers >= 0 ==> w == workers
    ensures workers < 0 ==> 1 <= w <= cpuCount && agents % w == 0
    ensures workers < 0 ==> forall k :: w < k <= cpuCount ==> agents % k != 0
  {
    w := workers;
    if w < 0 {
      w := cpuCount;
      while agents % w != 0
        invariant 1 <= w <= cpuCount
        invariant forall k :: w < k <= cpuCount ==> agents % k != 0
        decreases w
      {
        assert agents % 1 == 0;
        w := w - 1;
      }
    }
  }

  // ---------------------------------------------------------------------
  // resolution

  const ResolutionMap: map<string, (int, int)> :=
    map["full" := (210, 160), "standard" := (84, 84), "half" := (42, 42)]

  /** The resolution setting: lower-cased and looked up, any other name
      raises. */
  function Resolution(name: string): Result<(int, int), string>
  {
    var r := Lower(name);
    if r in ResolutionMap then Ok(ResolutionMap[r])
    else Err("Invalid resolution " + r)
  }

  /** The three names give their sizes, case-insensitively, and every other
      name is refused with its lower-cased spelling in the message. */
  lemma ResolutionCases(name: string)
    ensures Lower(name) == "full" ==> Resolution(name) == Ok((210, 160))
    ensures Lower(name) == "standard" ==> Resolution(name) == Ok((84, 84))
    ensures Lower(name) == "half" ==> Resolution(name) == Ok((42, 42))
    ensures Resolution(name).Ok? <==> Lower(name) in {"full", "standard", "half"}
    ensures Resolution(name).Err? ==> Resolution(name).error == "Invalid resolution " + Lower(name)
  {
  }

  lemma ResolutionIgnoresCase(name: string)
    ensures Resolution(Lower(name)) == Resolution(name)
  {
    LowerIdempotent(name);
  }
}
