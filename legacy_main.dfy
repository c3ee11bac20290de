/**
 * The start-up and the scan cycle of the set-ledger generations. v004 watches
 * <base folder>\<NG|OK|NG_OK>\<current month>\<side> with colour forced, and keeps
 * its set in the monthly partition below the output folder. v002 watches
 * <watch base>\<date>, decides grayscale or colour from the first PNG it can open,
 * and keeps its set in a daily partition in the log folder. Both rewrite the
 * partition after every walk, outside any try block.
 */
module LegacyMain {
  import opened Base
  import opened Text
  import opened Paths
  import opened Calendar
  import opened Rules
  import opened Storage
  import opened World
  import opened PathLedger
  import opened Scanning
  import opened MonthlyScan
  import opened LegacyWalk

  // ---- loading and saving the set ----

  /** load_processed_files reads the partition to its end without an exception: it is missing or a text. */
  predicate SetLoadCompletes(files: map<string, Node>, path: string) {
    path !in files || files[path].Text?
  }

  /** The set load_processed_files returns: the stripped lines of the partition, or nothing when it is missing. */
  function LoadedPaths(files: map<string, Node>, path: string): set<string> {
    if path in files && files[path].Text? then PathsOf(files[path].text) else {}
  }

  /** The partition at path reads back as the set listed, whenever it was written and every listed path survives a line round trip. */
  ghost predicate SavedAs(files: map<string, Node>, path: string, listed: set<string>, writeOk: bool) {
    writeOk && (forall p :: p in listed ==> Listable(p)) ==>
      path in files && files[path].Text? && PathsOf(files[path].text) == listed
  }

  /**
   * save_processed_files: only the ".txt" partition changes; when the write goes
   * through, loading the partition back gives the set that was saved.
   */
  method SaveSet(disk: Disk, listed: PathSet, path: string, writeOk: bool)
    requires EndsWith(path, ".txt")
    modifies disk
    ensures PngUnchanged(old(disk.files), disk.files)
    ensures forall q :: Lookup(disk.files, q) != Lookup(old(disk.files), q) ==> q == path
    ensures !writeOk ==> disk.files == old(disk.files)
    ensures SavedAs(disk.files, path, listed.paths, writeOk)
    ensures writeOk ==> path in disk.files && disk.files[path].Text?
  {
    ghost var order := listed.Save(disk, path, writeOk);
    forall q | IsPngName(q) ensures Lookup(disk.files, q) == Lookup(old(disk.files), q) {
      SourceIsNotOutput(q, path, path);
    }
    if writeOk && forall p :: p in listed.paths ==> Listable(p) {
      forall i | 0 <= i < |order| ensures Listable(order[i]) {
        assert order[i] in Items(order);
      }
      ReadBackPaths(order);
    }
  }

  // ---- what one cycle keeps ----

  /**
   * What one cycle keeps, against the disk and set it started from: no PNG changed,
   * the set only grew and only by walked files, the disk changed only at the
   * partition and at outputs of walked files, every JPEG the cycle wrote is in mode
   * m, and every walked file that was stable, on disk and converted without a
   * failing step is in the set.
   */
  ghost predicate CycleKept(files0: map<string, Node>, listed0: set<string>, files: map<string, Node>, listed: set<string>,
                            layout: Layout, out: string, watch: string, ledgerPath: string,
                            seen: seq<Observation>, pick: seq<bool>, m: JpegMode)
    requires |pick| == |seen|
  {
    PngUnchanged(files0, files)
    && listed0 <= listed
    && listed - listed0 <= VisitedPaths(watch, seen, pick, |seen|)
    && (forall q :: Lookup(files, q) != Lookup(files0, q) ==>
          q == ledgerPath || q in VisitedOutputs(layout, out, watch, seen, pick, |seen|))
    && (forall q :: q in files && q != ledgerPath && Lookup(files, q) != Lookup(files0, q) ==>
          files[q].Jpeg? && files[q].mode == m)
    && Settled(files0, listed, watch, seen, pick, |seen|)
  }

  /** A walk followed by a save that touches only the partition keeps what a cycle keeps. */
  lemma WalkThenSave(files0: map<string, Node>, listed0: set<string>, filesW: map<string, Node>, files: map<string, Node>,
                     listed: set<string>, layout: Layout, out: string, watch: string, ledgerPath: string,
                     seen: seq<Observation>, pick: seq<bool>, m: JpegMode)
    requires |pick| == |seen|
    requires LegacyKept(files0, listed0, filesW, listed, layout, out, watch, seen, pick, |seen|)
    requires WrittenInMode(files0, filesW, m)
    requires PngUnchanged(filesW, files)
    requires forall q :: Lookup(files, q) != Lookup(filesW, q) ==> q == ledgerPath
    ensures CycleKept(files0, listed0, files, listed, layout, out, watch, ledgerPath, seen, pick, m)
  {
    forall q | q in files && q != ledgerPath && Lookup(files, q) != Lookup(files0, q)
      ensures files[q].Jpeg? && files[q].mode == m
    {
      assert Lookup(files, q) == Lookup(filesW, q);
    }
  }

  // ---- v004 ----

  /**
   * One cycle of v004's main loop: colour is forced, the month's side folders are
   * walked, and the set is saved to the partition of the month the save runs in,
   * creating its folder. A failing save raises out of the loop.
   */
  method MccbCycle(disk: Disk, listed: PathSet, out: string, watch: string, name: string, month: string,
                   saveMonth: string, seen: seq<Observation>, writeOk: bool) returns (crashed: bool)
    modifies disk, listed
    ensures crashed <==> !writeOk
    ensures CycleKept(old(disk.files), old(listed.paths), disk.files, listed.paths, Mccb, out, watch,
                      MonthlyLedgerPath(out, name, saveMonth), seen, MonthlyPick(seen, month), RGB)
    ensures SavedAs(disk.files, MonthlyLedgerPath(out, name, saveMonth), listed.paths, writeOk)
  {
    var pick := MonthlyPick(seen, month);
    var path := MonthlyLedgerPath(out, name, saveMonth);
    ghost var files0 := disk.files;
    LegacyWalkAll(disk, listed, Mccb, out, watch, Color, seen, pick);
    ghost var filesW := disk.files;
    LedgerPathsEndInTxt(out, name, saveMonth, out);
    SaveSet(disk, listed, path, writeOk);
    WalkThenSave(files0, old(listed.paths), filesW, disk.files, listed.paths, Mccb, out, watch, path, seen, pick, RGB);
    crashed := !writeOk;
  }

  /**
   * The start of v004 followed by its first cycle: the base name, lower-cased, must
   * be in the [BaseFolders] table; the current month's partition is loaded outside
   * any try block, so a partition that cannot be read stops the program; then the
   * first cycle runs on the loaded set.
   */
  method MccbStart(disk: Disk, listed: PathSet, table: map<string, string>, out: string, baseName: string,
                   now: Date, saveNow: Date, seen: seq<Observation>, writeOk: bool) returns (r: ScanResult)
    modifies disk, listed
    ensures r.UnknownBase? <==> Lower(baseName) !in table
    ensures !r.BadDate? && !r.BadDateFormat?
    ensures r.UnknownBase? ==> disk.files == old(disk.files) && listed.paths == old(listed.paths)
    ensures var path := MonthlyLedgerPath(out, Lower(baseName), FormatYm(now));
      Lower(baseName) in table && !SetLoadCompletes(old(disk.files), path) ==>
        r.Crashed? && disk.files == old(disk.files)
    ensures var name := Lower(baseName);
      var path := MonthlyLedgerPath(out, name, FormatYm(now));
      var savePath := MonthlyLedgerPath(out, name, FormatYm(saveNow));
      name in table && SetLoadCompletes(old(disk.files), path) ==>
        (r.Crashed? <==> !writeOk) && (r.Scanned? <==> writeOk)
        && CycleKept(old(disk.files), LoadedPaths(old(disk.files), path), disk.files, listed.paths, Mccb, out, table[name],
                     savePath, seen, MonthlyPick(seen, FormatYm(now)), RGB)
        && SavedAs(disk.files, savePath, listed.paths, writeOk)
  {
    var name := Lower(baseName);
    if name !in table {
      return UnknownBase;
    }
    var ok := listed.Load(disk, MonthlyLedgerPath(out, name, FormatYm(now)));
    if !ok {
      return Crashed;
    }
    var crashed := MccbCycle(disk, listed, out, table[name], name, FormatYm(now), FormatYm(saveNow), seen, writeOk);
    return if crashed then Crashed else Scanned;
  }

  // ---- v002 ----

  /** The walk of v002 takes every ".png" name, at any depth below the date folder. */
  predicate IsPngObservation(o: Observation) {
    |o.parts| >= 1 && IsPngName(o.parts[|o.parts| - 1])
  }

  function PngPick(seen: seq<Observation>): (pick: seq<bool>)
    ensures |pick| == |seen|
    ensures forall i :: 0 <= i < |seen| ==> pick[i] == IsPngObservation(seen[i])
  {
    seq(|seen|, i requires 0 <= i < |seen| => IsPngObservation(seen[i]))
  }

  /**
   * The first walked PNG at or after i that the mode detection could open, or |seen|
   * when there is none: every PNG before it failed to open.
   */
  function FirstOpened(seen: seq<Observation>, opens: seq<OpenResult>, i: nat): (k: nat)
    requires |opens| == |seen| && i <= |seen|
    ensures i <= k <= |seen|
    ensures k < |seen| ==> IsPngObservation(seen[k]) && opens[k].Opened?
    ensures forall j :: i <= j < k && IsPngObservation(seen[j]) ==> !opens[j].Opened?
    decreases |seen| - i
  {
    if i == |seen| then i
    else if IsPngObservation(seen[i]) && opens[i].Opened? then i
    else FirstOpened(seen, opens, i + 1)
  }

  /** The global mode of one v002 cycle: the mode of the first PNG that opens, colour when none does. */
  function ResolvedMode(seen: seq<Observation>, opens: seq<OpenResult>): (g: GlobalMode)
    requires |opens| == |seen|
  {
    var k := FirstOpened(seen, opens, 0);
    if k < |seen| && opens[k].native == "L" then Grayscale else Color
  }

  /**
   * The mode detection decides grayscale exactly when some walked PNG opens as "L"
   * and every PNG before it failed to open; otherwise, including when no PNG opens,
   * it decides colour, so the walk never runs undecided.
   */
  lemma ResolvedModeMeaning(seen: seq<Observation>, opens: seq<OpenResult>)
    requires |opens| == |seen|
    ensures ResolvedMode(seen, opens) != Undecided
    ensures ResolvedMode(seen, opens) == Grayscale <==>
      exists k :: (0 <= k < |seen| && IsPngObservation(seen[k]) && opens[k].Opened? && opens[k].native == "L"
        && forall j :: 0 <= j < k && IsPngObservation(seen[j]) ==> !opens[j].Opened?)
  {
    var first := FirstOpened(seen, opens, 0);
    if ResolvedMode(seen, opens) == Grayscale {
      assert 0 <= first < |seen| && IsPngObservation(seen[first]) && opens[first].Opened? && opens[first].native == "L";
    }
    forall k | 0 <= k < |seen| && IsPngObservation(seen[k]) && opens[k].Opened? && opens[k].native == "L"
      && (forall j :: 0 <= j < k && IsPngObservation(seen[j]) ==> !opens[j].Opened?)
      ensures ResolvedMode(seen, opens) == Grayscale
    {
      assert first == k;
    }
  }

  /**
   * The mode detection loop of v002: walk the PNGs in order; the first one that opens
   * decides grayscale ("L") or colour and ends the search; one that cannot be opened
   * is logged and passed over; colour when none opens.
   */
  method ResolveMode(seen: seq<Observation>, opens: seq<OpenResult>) returns (g: GlobalMode)
    requires |opens| == |seen|
    ensures g == ResolvedMode(seen, opens)
  {
    var i := 0;
    while i < |seen|
      invariant 0 <= i <= |seen|
      invariant FirstOpened(seen, opens, i) == FirstOpened(seen, opens, 0)
    {
      if IsPngObservation(seen[i]) && opens[i].Opened? {
        return if opens[i].native == "L" then Grayscale else Color;
      }
      i := i + 1;
    }
    return Color;
  }

  /**
   * What one v002 cycle keeps: with the date folder present, what a cycle keeps with
   * the detected mode; without it, the set is unchanged and only the partition may
   * change on disk.
   */
  ghost predicate PlainKept(files0: map<string, Node>, listed0: set<string>, files: map<string, Node>, listed: set<string>,
                            out: string, watchBase: string, date: string, ledgerPath: string, watchExists: bool,
                            seen: seq<Observation>, opens: seq<OpenResult>)
    requires |opens| == |seen|
  {
    if watchExists then
      ResolvedModeMeaning(seen, opens);
      CycleKept(files0, listed0, files, listed, Plain(date), out, JoinPath(watchBase, date), ledgerPath,
                seen, PngPick(seen), ForcedMode(ResolvedMode(seen, opens)))
    else
      listed == listed0 && forall q :: Lookup(files, q) != Lookup(files0, q) ==> q == ledgerPath
  }

  /**
   * One cycle of v002's main loop: when the date folder exists, detect the mode and
   * walk every PNG below it; otherwise report the missing folder. Either way the set
   * is then saved to the partition of the day the save runs in, and a failing save
   * raises out of the loop.
   */
  method PlainCycle(disk: Disk, listed: PathSet, out: string, watchBase: string, date: string, logFolder: string,
                    saveDate: string, watchExists: bool, seen: seq<Observation>, opens: seq<OpenResult>, writeOk: bool)
    returns (crashed: bool)
    requires |opens| == |seen|
    modifies disk, listed
    ensures crashed <==> !writeOk
    ensures PlainKept(old(disk.files), old(listed.paths), disk.files, listed.paths, out, watchBase, date,
                      LogFolderLedgerPath(logFolder, saveDate), watchExists, seen, opens)
    ensures SavedAs(disk.files, LogFolderLedgerPath(logFolder, saveDate), listed.paths, writeOk)
  {
    var path := LogFolderLedgerPath(logFolder, saveDate);
    LedgerPathsEndInTxt(out, date, saveDate, logFolder);
    ghost var files0 := disk.files;
    if watchExists {
      var g := ResolveMode(seen, opens);
      ResolvedModeMeaning(seen, opens);
      var watch := JoinPath(watchBase, date);
      var pick := PngPick(seen);
      LegacyWalkAll(disk, listed, Plain(date), out, watch, g, seen, pick);
      ghost var filesW := disk.files;
      SaveSet(disk, listed, path, writeOk);
      WalkThenSave(files0, old(listed.paths), filesW, disk.files, listed.paths, Plain(date), out, watch, path,
                   seen, pick, ForcedMode(g));
    } else {
      SaveSet(disk, listed, path, writeOk);
    }
    crashed := !writeOk;
  }

  /**
   * The start of v002 followed by its first cycle: a date argument that is present
   * and not empty must be eight digits, or the program exits; otherwise the folder
   * watched is <watch base>\<argument>, or <watch base>\<today> without one. Today's
   * partition in the log folder is loaded outside any try block, so a partition that
   * cannot be read stops the program; then the first cycle runs on the loaded set.
   */
  method PlainStart(disk: Disk, listed: PathSet, out: string, watchBase: string, logFolder: string, arg: Option<string>,
                    today: Date, saveDate: string, watchExists: bool, seen: seq<Observation>, opens: seq<OpenResult>,
                    writeOk: bool) returns (r: ScanResult)
    requires |opens| == |seen|
    modifies disk, listed
    ensures r.BadDateFormat? <==> arg.Some? && arg.value != [] && !MatchesDigits(arg.value, 8)
    ensures !r.UnknownBase? && !r.BadDate?
    ensures r.BadDateFormat? ==> disk.files == old(disk.files) && listed.paths == old(listed.paths)
    ensures var path := LogFolderLedgerPath(logFolder, FormatYmd(today));
      !r.BadDateFormat? && !SetLoadCompletes(old(disk.files), path) ==> r.Crashed? && disk.files == old(disk.files)
    ensures var path := LogFolderLedgerPath(logFolder, FormatYmd(today));
      var date := if arg.Some? && arg.value != [] then arg.value else FormatYmd(today);
      var savePath := LogFolderLedgerPath(logFolder, saveDate);
      !r.BadDateFormat? && SetLoadCompletes(old(disk.files), path) ==>
        (r.Crashed? <==> !writeOk) && (r.Scanned? <==> writeOk)
        && PlainKept(old(disk.files), LoadedPaths(old(disk.files), path), disk.files, listed.paths, out, watchBase, date,
                     savePath, watchExists, seen, opens)
        && SavedAs(disk.files, savePath, listed.paths, writeOk)
  {
    var date: string;
    if arg.Some? && arg.value != [] {
      if !MatchesDigits(arg.value, 8) {
        return BadDateFormat;
      }
      date := arg.value;
    } else {
      date := FormatYmd(today);
    }
    var ok := listed.Load(disk, LogFolderLedgerPath(logFolder, FormatYmd(today)));
    if !ok {
      return Crashed;
    }
    var crashed := PlainCycle(disk, listed, out, watchBase, date, logFolder, saveDate, watchExists, seen, opens, writeOk);
    return if crashed then Crashed else Scanned;
  }
}
