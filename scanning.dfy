/**
 * What the timestamp-ledger scans share: how a scan ends, the facts every scan keeps
 * about the disk and the ledger, and the visit of one walked PNG (due test, stability
 * gate, conversion, ledger save).
 */
module Scanning {
  import opened Base
  import opened Text
  import opened Paths
  import opened Rules
  import opened Storage
  import opened World
  import opened LedgerFile
  import opened Ledger
  import opened Conversion

  /** How one call of a scan ends. */
  datatype ScanResult =
    | Scanned        // the walk ran to its end
    | UnknownBase    // the base name is not in the [BaseFolders] table
    | BadDateFormat  // the date argument failed its regular expression
    | BadDate        // the date argument is not a calendar date
    | Crashed        // an exception escaped: the program stops here

  /** Nothing at a PNG path was created, changed or removed. */
  ghost predicate PngUnchanged(before: map<string, Node>, after: map<string, Node>) {
    forall q :: IsPngName(q) ==> Lookup(after, q) == Lookup(before, q)
  }

  /**
   * Since the ledger held loaded: no path was dropped, and every timestamp that changed
   * belongs to a PNG on disk and is that PNG's modification time now.
   */
  ghost predicate ChangesAreCurrent(loaded: map<string, nat>, entries: map<string, nat>, files: map<string, Node>) {
    loaded.Keys <= entries.Keys
    && forall k :: k in entries && Lookup(entries, k) != Lookup(loaded, k) ==>
         IsPngName(k) && k in files && files[k].Image? && entries[k] == files[k].mtime
  }

  /** The output folder and name of a walked file under the mccb layout. */
  function TempOf(out: string, watch: string, parts: seq<string>): string
    requires |parts| >= 1
  {
    TempOutput(MccbOutputDir(out, watch, parts), parts[|parts| - 1])
  }

  function FinalOf(out: string, watch: string, parts: seq<string>): string
    requires |parts| >= 1
  {
    FinalOutput(MccbOutputDir(out, watch, parts), parts[|parts| - 1])
  }

  /** The conversion of a walked PNG, as the visit needs it: the PNGs stay, only its outputs change, the ledger gains it only on publishing. */
  method ConvertWalked(disk: Disk, ledger: Ledger, out: string, watch: string, o: Observation, g: GlobalMode)
    requires |o.parts| >= 1 && IsPngName(o.parts[|o.parts| - 1])
    requires SourcePath(watch, o.parts) in disk.files && disk.files[SourcePath(watch, o.parts)].Image?
    modifies disk, ledger
    ensures PngUnchanged(old(disk.files), disk.files)
    ensures forall q :: Lookup(disk.files, q) != Lookup(old(disk.files), q) ==>
      q == TempOf(out, watch, o.parts) || q == FinalOf(out, watch, o.parts)
    ensures var p := SourcePath(watch, o.parts);
      ledger.entries == old(ledger.entries) || ledger.entries == old(ledger.entries)[p := old(disk.files)[p].mtime]
    ensures var p := SourcePath(watch, o.parts);
      IsClean(o.attempt) ==> ledger.entries == old(ledger.entries)[p := old(disk.files)[p].mtime]
  {
    var p := SourcePath(watch, o.parts);
    var name := o.parts[|o.parts| - 1];
    var dir := MccbOutputDir(out, watch, o.parts);
    ghost var before := disk.files;
    if IsClean(o.attempt) {
      TempIsNotFinal(dir, name);
      CleanAttemptPublishes(before, p, TempOutput(dir, name), FinalOutput(dir, name), g, o.attempt);
    }
    var outcome := ConvertAndRecord(disk, ledger, out, watch, o.parts, g, o.attempt);
    forall q | IsPngName(q) ensures Lookup(disk.files, q) == Lookup(before, q) {
      ConversionKeepsPngs(before, p, dir, name, g, o.attempt, true, q);
    }
  }

  /** A ledger save touches only its ".txt" partition. */
  method SaveLedger(disk: Disk, ledger: Ledger, ledgerPath: string, writeOk: bool)
    requires EndsWith(ledgerPath, ".txt")
    modifies disk
    ensures PngUnchanged(old(disk.files), disk.files)
    ensures forall q :: Lookup(disk.files, q) != Lookup(old(disk.files), q) ==> q == ledgerPath
    ensures writeOk ==> ledgerPath in disk.files && disk.files[ledgerPath].Text?
  {
    var order := ledger.Save(disk, ledgerPath, writeOk);
    forall q | IsPngName(q) ensures Lookup(disk.files, q) == Lookup(old(disk.files), q) {
      SourceIsNotOutput(q, ledgerPath, ledgerPath);
    }
  }

  /**
   * The visit of one walked PNG whose modification time could be read: when it is due
   * and stable, convert it and then save the ledger, whether or not the conversion
   * published; otherwise change nothing. Only the file's outputs and the ledger
   * partition change on disk; the ledger gains the file at its current modification
   * time exactly when the JPEG was published; a stable file whose conversion cannot
   * fail ends up recorded at its current modification time.
   */
  method ConvertIfDue(disk: Disk, ledger: Ledger, out: string, watch: string, o: Observation,
                      g: GlobalMode, ledgerPath: string) returns (ghost saved: bool)
    requires |o.parts| >= 1 && IsPngName(o.parts[|o.parts| - 1])
    requires EndsWith(ledgerPath, ".txt")
    requires SourcePath(watch, o.parts) in disk.files && disk.files[SourcePath(watch, o.parts)].Image?
    modifies disk, ledger
    ensures var p := SourcePath(watch, o.parts);
      saved <==> IsDue(old(ledger.entries), p, old(disk.files)[p].mtime) && IsStable(o.probe)
    ensures PngUnchanged(old(disk.files), disk.files)
    ensures forall q :: Lookup(disk.files, q) != Lookup(old(disk.files), q) ==>
      saved && (q == ledgerPath || q == TempOf(out, watch, o.parts) || q == FinalOf(out, watch, o.parts))
    ensures var p := SourcePath(watch, o.parts);
      ledger.entries == old(ledger.entries) || (saved && ledger.entries == old(ledger.entries)[p := old(disk.files)[p].mtime])
    ensures var p := SourcePath(watch, o.parts);
      IsStable(o.probe) && IsClean(o.attempt) ==> p in ledger.entries && ledger.entries[p] == old(disk.files)[p].mtime
    ensures saved && o.ledgerWriteOk ==> ledgerPath in disk.files && disk.files[ledgerPath].Text?
  {
    var p := SourcePath(watch, o.parts);
    var mtime := disk.files[p].mtime;
    SourcePathIsPng(watch, o.parts);
    var visit := IsDue(ledger.entries, p, mtime) && IsStable(o.probe);
    saved := visit;
    if !visit {
      return;
    }
    ConvertWalked(disk, ledger, out, watch, o, g);
    SaveLedger(disk, ledger, ledgerPath, o.ledgerWriteOk);
  }

  /** The file of observation o is a PNG on disk whose modification time can be read. */
  predicate Readable(files: map<string, Node>, watch: string, o: Observation) {
    SourcePath(watch, o.parts) in files && files[SourcePath(watch, o.parts)].Image?
  }

  /** Observation i passed the scan's filter, could be read, and was stable: the files a scan may convert. */
  predicate Examined(files: map<string, Node>, watch: string, seen: seq<Observation>, pick: seq<bool>, i: int)
    requires |pick| == |seen|
  {
    0 <= i < |seen| && pick[i] && |seen[i].parts| >= 1 && Readable(files, watch, seen[i]) && IsStable(seen[i].probe)
  }

  /** The paths of the files examined among the first n observations. */
  function ExaminedPaths(files: map<string, Node>, watch: string, seen: seq<Observation>, pick: seq<bool>, n: nat): set<string>
    requires |pick| == |seen| && n <= |seen|
  {
    if n == 0 then {}
    else (ExaminedPaths(files, watch, seen, pick, n - 1)
          + if Examined(files, watch, seen, pick, n - 1) then {SourcePath(watch, seen[n - 1].parts)} else {})
  }

  /** The temp and final outputs of the files examined among the first n observations. */
  function ExaminedOutputs(files: map<string, Node>, out: string, watch: string, seen: seq<Observation>, pick: seq<bool>, n: nat): set<string>
    requires |pick| == |seen| && n <= |seen|
  {
    if n == 0 then {}
    else (ExaminedOutputs(files, out, watch, seen, pick, n - 1)
          + if Examined(files, watch, seen, pick, n - 1)
            then {TempOf(out, watch, seen[n - 1].parts), FinalOf(out, watch, seen[n - 1].parts)} else {})
  }

  /** The examined paths are exactly the paths of the observations examined. */
  lemma {:induction false} ExaminedPathsMeaning(files: map<string, Node>, watch: string, seen: seq<Observation>, pick: seq<bool>, n: nat, k: string)
    requires |pick| == |seen| && n <= |seen|
    ensures k in ExaminedPaths(files, watch, seen, pick, n) <==>
      exists j :: 0 <= j < n && Examined(files, watch, seen, pick, j) && SourcePath(watch, seen[j].parts) == k
  {
    if n > 0 {
      ExaminedPathsMeaning(files, watch, seen, pick, n - 1, k);
    }
  }

  /** Every examined output is the temp or final output of a file examined among the first n. */
  lemma {:induction false} ExaminedOutputsFrom(files: map<string, Node>, out: string, watch: string, seen: seq<Observation>, pick: seq<bool>, n: nat, q: string)
    requires |pick| == |seen| && n <= |seen|
    requires q in ExaminedOutputs(files, out, watch, seen, pick, n)
    ensures exists j :: (0 <= j < n && Examined(files, watch, seen, pick, j)
      && (q == TempOf(out, watch, seen[j].parts) || q == FinalOf(out, watch, seen[j].parts)))
  {
    if q in ExaminedOutputs(files, out, watch, seen, pick, n - 1) {
      ExaminedOutputsFrom(files, out, watch, seen, pick, n - 1, q);
    }
  }

  /** Both outputs of every file examined among the first n are examined outputs. */
  lemma ExaminedOutputsCover(files: map<string, Node>, out: string, watch: string, seen: seq<Observation>, pick: seq<bool>, n: nat, j: nat)
    requires |pick| == |seen| && j < n <= |seen|
    requires Examined(files, watch, seen, pick, j)
    ensures TempOf(out, watch, seen[j].parts) in ExaminedOutputs(files, out, watch, seen, pick, n)
    ensures FinalOf(out, watch, seen[j].parts) in ExaminedOutputs(files, out, watch, seen, pick, n)
  {
    ExaminedOutputsAt(files, out, watch, seen, pick, j);
    ExaminedGrows(files, out, watch, seen, pick, j + 1, n);
  }

  lemma ExaminedOutputsAt(files: map<string, Node>, out: string, watch: string, seen: seq<Observation>, pick: seq<bool>, j: nat)
    requires |pick| == |seen| && j < |seen| && Examined(files, watch, seen, pick, j)
    ensures {TempOf(out, watch, seen[j].parts), FinalOf(out, watch, seen[j].parts)} <= ExaminedOutputs(files, out, watch, seen, pick, j + 1)
  {
  }

  /** Looking at more observations never shrinks what was examined. */
  lemma {:induction false} ExaminedGrows(files: map<string, Node>, out: string, watch: string, seen: seq<Observation>, pick: seq<bool>, n: nat, m: nat)
    requires |pick| == |seen| && n <= m <= |seen|
    ensures ExaminedPaths(files, watch, seen, pick, n) <= ExaminedPaths(files, watch, seen, pick, m)
    ensures ExaminedOutputs(files, out, watch, seen, pick, n) <= ExaminedOutputs(files, out, watch, seen, pick, m)
    decreases m - n
  {
    if n < m {
      ExaminedGrows(files, out, watch, seen, pick, n + 1, m);
    }
  }

  /** Every ledger entry that changed belongs to a file examined among the first i. */
  ghost predicate EntriesExamined(files0: map<string, Node>, entries0: map<string, nat>, entries: map<string, nat>,
                                  watch: string, seen: seq<Observation>, pick: seq<bool>, i: nat)
    requires |pick| == |seen| && i <= |seen|
  {
    forall k :: k in entries && Lookup(entries, k) != Lookup(entries0, k) ==> k in ExaminedPaths(files0, watch, seen, pick, i)
  }

  /** Every disk path that changed is the ledger partition or an output of a file examined among the first i. */
  ghost predicate FilesExamined(files0: map<string, Node>, files: map<string, Node>, out: string, watch: string, ledgerPath: string,
                                seen: seq<Observation>, pick: seq<bool>, i: nat)
    requires |pick| == |seen| && i <= |seen|
  {
    forall q :: Lookup(files, q) != Lookup(files0, q) ==> q == ledgerPath || q in ExaminedOutputs(files0, out, watch, seen, pick, i)
  }

  /** Every file examined among the first i whose conversion cannot fail is recorded at its modification time. */
  ghost predicate Recorded(files0: map<string, Node>, entries: map<string, nat>, watch: string, seen: seq<Observation>, pick: seq<bool>, i: nat)
    requires |pick| == |seen| && i <= |seen|
  {
    forall j :: 0 <= j < i && Examined(files0, watch, seen, pick, j) && IsClean(seen[j].attempt) ==>
      var p := SourcePath(watch, seen[j].parts);
      p in entries && entries[p] == files0[p].mtime
  }

  /** What a walk keeps after its first i files, against the disk and ledger it started from. */
  ghost predicate WalkKept(files0: map<string, Node>, entries0: map<string, nat>, files: map<string, Node>, entries: map<string, nat>,
                           out: string, watch: string, ledgerPath: string, seen: seq<Observation>, pick: seq<bool>, i: nat)
    requires |pick| == |seen| && i <= |seen|
  {
    PngUnchanged(files0, files)
    && ChangesAreCurrent(entries0, entries, files)
    && EntriesExamined(files0, entries0, entries, watch, seen, pick, i)
    && FilesExamined(files0, files, out, watch, ledgerPath, seen, pick, i)
    && Recorded(files0, entries, watch, seen, pick, i)
  }

  /** What a walk kept after its first i files bounds its changes by everything it could examine. */
  lemma KeptToEnd(files0: map<string, Node>, entries0: map<string, nat>, files: map<string, Node>, entries: map<string, nat>,
                  out: string, watch: string, ledgerPath: string, seen: seq<Observation>, pick: seq<bool>, i: nat)
    requires |pick| == |seen| && i <= |seen|
    requires WalkKept(files0, entries0, files, entries, out, watch, ledgerPath, seen, pick, i)
    ensures EntriesExamined(files0, entries0, entries, watch, seen, pick, |seen|)
    ensures FilesExamined(files0, files, out, watch, ledgerPath, seen, pick, |seen|)
  {
    ExaminedGrows(files0, out, watch, seen, pick, i, |seen|);
  }

  /**
   * The walk of one scan over the files os.walk found, in its order: each file the
   * filter picked is visited (due test, stability gate, conversion, save). A picked file
   * whose modification time cannot be read is skipped, or, where the source reads it
   * outside any try block (stopAtUnreadable), ends the scan with an exception.
   * Afterwards no PNG changed; the only disk paths that changed are the ledger
   * partition and outputs of examined files; every changed ledger entry is the current
   * modification time of an examined file; and a completed walk leaves every examined
   * file whose conversion cannot fail recorded at its current modification time.
   */
  method Walk(disk: Disk, ledger: Ledger, out: string, watch: string, g: GlobalMode, ledgerPath: string,
              seen: seq<Observation>, pick: seq<bool>, stopAtUnreadable: bool) returns (crashed: bool)
    requires |pick| == |seen|
    requires forall i :: 0 <= i < |seen| && pick[i] ==> |seen[i].parts| >= 1 && IsPngName(seen[i].parts[|seen[i].parts| - 1])
    requires EndsWith(ledgerPath, ".txt")
    modifies disk, ledger
    ensures crashed <==> stopAtUnreadable && exists i :: 0 <= i < |seen| && pick[i] && !Readable(old(disk.files), watch, seen[i])
    ensures PngUnchanged(old(disk.files), disk.files)
    ensures ChangesAreCurrent(old(ledger.entries), ledger.entries, disk.files)
    ensures EntriesExamined(old(disk.files), old(ledger.entries), ledger.entries, watch, seen, pick, |seen|)
    ensures FilesExamined(old(disk.files), disk.files, out, watch, ledgerPath, seen, pick, |seen|)
    ensures !crashed ==> Recorded(old(disk.files), ledger.entries, watch, seen, pick, |seen|)
  {
    ghost var files0 := disk.files;
    ghost var entries0 := ledger.entries;
    var i := 0;
    while i < |seen|
      invariant 0 <= i <= |seen|
      invariant stopAtUnreadable ==> forall j :: 0 <= j < i && pick[j] ==> Readable(files0, watch, seen[j])
      invariant WalkKept(files0, entries0, disk.files, ledger.entries, out, watch, ledgerPath, seen, pick, i)
    {
      var stop := WalkStep(disk, ledger, out, watch, g, ledgerPath, seen, pick, stopAtUnreadable, i, files0, entries0);
      if stop {
        KeptToEnd(files0, entries0, disk.files, ledger.entries, out, watch, ledgerPath, seen, pick, i);
        return true;
      }
      i := i + 1;
    }
    KeptToEnd(files0, entries0, disk.files, ledger.entries, out, watch, ledgerPath, seen, pick, i);
    return false;
  }

  /**
   * The walk's handling of its i-th file: a picked file that can be read is visited; a
   * picked file that cannot is skipped, or stops the walk (stop) with nothing changed.
   */
  method WalkStep(disk: Disk, ledger: Ledger, out: string, watch: string, g: GlobalMode, ledgerPath: string,
                  seen: seq<Observation>, pick: seq<bool>, stopAtUnreadable: bool, i: nat,
                  ghost files0: map<string, Node>, ghost entries0: map<string, nat>) returns (stop: bool)
    requires |pick| == |seen| && i < |seen|
    requires pick[i] ==> |seen[i].parts| >= 1 && IsPngName(seen[i].parts[|seen[i].parts| - 1])
    requires EndsWith(ledgerPath, ".txt")
    requires WalkKept(files0, entries0, disk.files, ledger.entries, out, watch, ledgerPath, seen, pick, i)
    modifies disk, ledger
    ensures stop <==> stopAtUnreadable && pick[i] && !Readable(files0, watch, seen[i])
    ensures stop ==> disk.files == old(disk.files) && ledger.entries == old(ledger.entries)
    ensures !stop ==> WalkKept(files0, entries0, disk.files, ledger.entries, out, watch, ledgerPath, seen, pick, i + 1)
  {
    if pick[i] {
      var p := SourcePath(watch, seen[i].parts);
      SourcePathIsPng(watch, seen[i].parts);
      assert Lookup(disk.files, p) == Lookup(files0, p);
      if Readable(disk.files, watch, seen[i]) {
        VisitStep(disk, ledger, out, watch, g, ledgerPath, seen, pick, i, files0, entries0);
        return false;
      }
      if stopAtUnreadable {
        return true;
      }
    }
    SkipKeeps(files0, entries0, disk.files, ledger.entries, out, watch, ledgerPath, seen, pick, i);
    return false;
  }

  /** Passing over a file that is not examined keeps what the walk keeps. */
  lemma SkipKeeps(files0: map<string, Node>, entries0: map<string, nat>, files: map<string, Node>, entries: map<string, nat>,
                  out: string, watch: string, ledgerPath: string, seen: seq<Observation>, pick: seq<bool>, i: nat)
    requires |pick| == |seen| && i < |seen|
    requires !Examined(files0, watch, seen, pick, i)
    requires WalkKept(files0, entries0, files, entries, out, watch, ledgerPath, seen, pick, i)
    ensures WalkKept(files0, entries0, files, entries, out, watch, ledgerPath, seen, pick, i + 1)
  {
    SkipExamines(files0, out, watch, seen, pick, i);
    SkipRecorded(files0, entries, watch, seen, pick, i);
  }

  /** A file that is not examined adds nothing to the examined paths and outputs. */
  lemma SkipExamines(files0: map<string, Node>, out: string, watch: string, seen: seq<Observation>, pick: seq<bool>, i: nat)
    requires |pick| == |seen| && i < |seen|
    requires !Examined(files0, watch, seen, pick, i)
    ensures ExaminedPaths(files0, watch, seen, pick, i + 1) == ExaminedPaths(files0, watch, seen, pick, i)
    ensures ExaminedOutputs(files0, out, watch, seen, pick, i + 1) == ExaminedOutputs(files0, out, watch, seen, pick, i)
  {
  }

  /** A file that is not examined adds nothing to what must be recorded. */
  lemma SkipRecorded(files0: map<string, Node>, entries: map<string, nat>, watch: string, seen: seq<Observation>, pick: seq<bool>, i: nat)
    requires |pick| == |seen| && i < |seen|
    requires !Examined(files0, watch, seen, pick, i)
    requires Recorded(files0, entries, watch, seen, pick, i)
    ensures Recorded(files0, entries, watch, seen, pick, i + 1)
  {
    forall j | 0 <= j < i + 1 && Examined(files0, watch, seen, pick, j) && IsClean(seen[j].attempt)
      ensures var p := SourcePath(watch, seen[j].parts); p in entries && entries[p] == files0[p].mtime
    {
      assert j < i;
    }
  }

  /** Visiting the i-th file, picked and readable, keeps what the walk keeps. */
  method VisitStep(disk: Disk, ledger: Ledger, out: string, watch: string, g: GlobalMode, ledgerPath: string,
                   seen: seq<Observation>, pick: seq<bool>, i: nat, ghost files0: map<string, Node>, ghost entries0: map<string, nat>)
    requires |pick| == |seen| && i < |seen| && pick[i]
    requires |seen[i].parts| >= 1 && IsPngName(seen[i].parts[|seen[i].parts| - 1])
    requires EndsWith(ledgerPath, ".txt")
    requires Readable(disk.files, watch, seen[i])
    requires WalkKept(files0, entries0, disk.files, ledger.entries, out, watch, ledgerPath, seen, pick, i)
    modifies disk, ledger
    ensures WalkKept(files0, entries0, disk.files, ledger.entries, out, watch, ledgerPath, seen, pick, i + 1)
  {
    var o := seen[i];
    var p := SourcePath(watch, o.parts);
    SourcePathIsPng(watch, o.parts);
    assert Lookup(disk.files, p) == Lookup(files0, p);
    ghost var filesA, entriesA := disk.files, ledger.entries;
    ghost var saved := ConvertIfDue(disk, ledger, out, watch, o, g, ledgerPath);
    VisitKeeps(files0, entries0, filesA, entriesA, disk.files, ledger.entries, out, watch, ledgerPath, seen, pick, i, saved);
  }

  /** One visit, as ConvertIfDue describes it, keeps what the walk keeps. */
  lemma VisitKeeps(files0: map<string, Node>, entries0: map<string, nat>, filesA: map<string, Node>, entriesA: map<string, nat>,
                   files: map<string, Node>, entries: map<string, nat>,
                   out: string, watch: string, ledgerPath: string, seen: seq<Observation>, pick: seq<bool>, i: nat, saved: bool)
    requires |pick| == |seen| && i < |seen| && pick[i]
    requires |seen[i].parts| >= 1 && IsPngName(SourcePath(watch, seen[i].parts))
    requires Readable(filesA, watch, seen[i])
    requires Lookup(filesA, SourcePath(watch, seen[i].parts)) == Lookup(files0, SourcePath(watch, seen[i].parts))
    requires WalkKept(files0, entries0, filesA, entriesA, out, watch, ledgerPath, seen, pick, i)
    requires saved ==> IsStable(seen[i].probe)
    requires PngUnchanged(filesA, files)
    requires forall q :: Lookup(files, q) != Lookup(filesA, q) ==>
      saved && (q == ledgerPath || q == TempOf(out, watch, seen[i].parts) || q == FinalOf(out, watch, seen[i].parts))
    requires var p := SourcePath(watch, seen[i].parts);
      entries == entriesA || (saved && entries == entriesA[p := filesA[p].mtime])
    requires var p := SourcePath(watch, seen[i].parts);
      IsStable(seen[i].probe) && IsClean(seen[i].attempt) ==> p in entries && entries[p] == filesA[p].mtime
    ensures WalkKept(files0, entries0, files, entries, out, watch, ledgerPath, seen, pick, i + 1)
  {
    var p := SourcePath(watch, seen[i].parts);
    assert saved ==> Examined(files0, watch, seen, pick, i);
    assert PngUnchanged(files0, files) by {
      forall q | IsPngName(q) ensures Lookup(files, q) == Lookup(files0, q) {
      }
    }
    VisitEntries(files0, entries0, filesA, entriesA, files, entries, watch, seen, pick, i, saved);
    VisitFiles(files0, filesA, files, out, watch, ledgerPath, seen, pick, i, saved);
    VisitRecorded(files0, filesA, entriesA, entries, watch, seen, pick, i, saved);
  }

  /** A visit that records its file at its current time, if at all, keeps every changed entry current and examined. */
  lemma VisitEntries(files0: map<string, Node>, entries0: map<string, nat>, filesA: map<string, Node>, entriesA: map<string, nat>,
                     files: map<string, Node>, entries: map<string, nat>,
                     watch: string, seen: seq<Observation>, pick: seq<bool>, i: nat, saved: bool)
    requires |pick| == |seen| && i < |seen|
    requires IsPngName(SourcePath(watch, seen[i].parts)) && Readable(filesA, watch, seen[i])
    requires saved ==> Examined(files0, watch, seen, pick, i)
    requires ChangesAreCurrent(entries0, entriesA, filesA)
    requires EntriesExamined(files0, entries0, entriesA, watch, seen, pick, i)
    requires PngUnchanged(filesA, files)
    requires var p := SourcePath(watch, seen[i].parts);
      entries == entriesA || (saved && entries == entriesA[p := filesA[p].mtime])
    ensures ChangesAreCurrent(entries0, entries, files)
    ensures EntriesExamined(files0, entries0, entries, watch, seen, pick, i + 1)
  {
    var p := SourcePath(watch, seen[i].parts);
    var before := ExaminedPaths(files0, watch, seen, pick, i);
    var after := ExaminedPaths(files0, watch, seen, pick, i + 1);
    assert before <= after;
    assert saved ==> p in after;
    forall k | k in entries && Lookup(entries, k) != Lookup(entries0, k)
      ensures IsPngName(k) && k in files && files[k].Image? && entries[k] == files[k].mtime
      ensures k in after
    {
      if k != p || entries == entriesA {
        assert Lookup(entries, k) == Lookup(entriesA, k);
      }
      assert Lookup(files, k) == Lookup(filesA, k);
    }
  }

  /** A visit that changes only the ledger partition and the file's outputs, and only when it converted, keeps every changed path examined. */
  lemma VisitFiles(files0: map<string, Node>, filesA: map<string, Node>, files: map<string, Node>,
                   out: string, watch: string, ledgerPath: string, seen: seq<Observation>, pick: seq<bool>, i: nat, saved: bool)
    requires |pick| == |seen| && i < |seen|
    requires saved ==> Examined(files0, watch, seen, pick, i)
    requires FilesExamined(files0, filesA, out, watch, ledgerPath, seen, pick, i)
    requires forall q :: Lookup(files, q) != Lookup(filesA, q) ==>
      saved && (q == ledgerPath || q == TempOf(out, watch, seen[i].parts) || q == FinalOf(out, watch, seen[i].parts))
    ensures FilesExamined(files0, files, out, watch, ledgerPath, seen, pick, i + 1)
  {
    var before := ExaminedOutputs(files0, out, watch, seen, pick, i);
    var after := ExaminedOutputs(files0, out, watch, seen, pick, i + 1);
    assert before <= after;
    if saved {
      assert TempOf(out, watch, seen[i].parts) in after && FinalOf(out, watch, seen[i].parts) in after;
    }
    forall q | Lookup(files, q) != Lookup(files0, q) ensures q == ledgerPath || q in after {
      if Lookup(files, q) == Lookup(filesA, q) {
        assert q == ledgerPath || q in before;
      }
    }
  }

  /** A visit that records a stable file whose conversion cannot fail keeps every earlier such file recorded. */
  lemma VisitRecorded(files0: map<string, Node>, filesA: map<string, Node>, entriesA: map<string, nat>, entries: map<string, nat>,
                      watch: string, seen: seq<Observation>, pick: seq<bool>, i: nat, saved: bool)
    requires |pick| == |seen| && i < |seen| && Readable(filesA, watch, seen[i])
    requires Lookup(filesA, SourcePath(watch, seen[i].parts)) == Lookup(files0, SourcePath(watch, seen[i].parts))
    requires Recorded(files0, entriesA, watch, seen, pick, i)
    requires var p := SourcePath(watch, seen[i].parts);
      entries == entriesA || (saved && entries == entriesA[p := filesA[p].mtime])
    requires var p := SourcePath(watch, seen[i].parts);
      IsStable(seen[i].probe) && IsClean(seen[i].attempt) ==> p in entries && entries[p] == filesA[p].mtime
    ensures Recorded(files0, entries, watch, seen, pick, i + 1)
  {
    var p := SourcePath(watch, seen[i].parts);
    forall j | 0 <= j < i + 1 && Examined(files0, watch, seen, pick, j) && IsClean(seen[j].attempt)
      ensures SourcePath(watch, seen[j].parts) in entries
        && entries[SourcePath(watch, seen[j].parts)] == files0[SourcePath(watch, seen[j].parts)].mtime
    {
      var pj := SourcePath(watch, seen[j].parts);
      if j < i && (pj != p || entries == entriesA) {
        assert Lookup(entries, pj) == Lookup(entriesA, pj);
      }
    }
  }

}
