/**
 * The monthly generations: find_and_process_png_files of v11 and the scan loop of
 * v007. Both walk only <watch>\<NG|OK|NG_OK>\<YYYYMM>\<side> of the current month
 * (a missing folder on the way yields no files), take every ".png" at any depth
 * below a side folder, and read its modification time outside any try block.
 */
module MonthlyScan {
  import opened Base
  import opened Text
  import opened Paths
  import opened Calendar
  import opened Rules
  import opened Storage
  import opened World
  import opened Ledger
  import opened Scanning

  function MonthlyPick(seen: seq<Observation>, month: string): (pick: seq<bool>)
    ensures |pick| == |seen|
    ensures forall i :: 0 <= i < |seen| ==> pick[i] == IsNestedCandidate(seen[i].parts, month)
  {
    seq(|seen|, i requires 0 <= i < |seen| => IsNestedCandidate(seen[i].parts, month))
  }

  /**
   * One walk of the month's folders with the ledger partition of that month: the
   * first picked file whose modification time cannot be read raises out of the scan
   * (crashed); otherwise the walk keeps what every walk keeps.
   */
  method MonthWalk(disk: Disk, ledger: Ledger, out: string, watch: string, name: string, month: string,
                   seen: seq<Observation>) returns (crashed: bool)
    modifies disk, ledger
    ensures var pick := MonthlyPick(seen, month);
      crashed <==> exists i :: 0 <= i < |seen| && pick[i] && !Readable(old(disk.files), watch, seen[i])
    ensures var pick := MonthlyPick(seen, month);
      var path := MonthlyLedgerPath(out, name, month);
      PngUnchanged(old(disk.files), disk.files)
      && ChangesAreCurrent(old(ledger.entries), ledger.entries, disk.files)
      && EntriesExamined(old(disk.files), old(ledger.entries), ledger.entries, watch, seen, pick, |seen|)
      && FilesExamined(old(disk.files), disk.files, out, watch, path, seen, pick, |seen|)
      && (!crashed ==> Recorded(old(disk.files), ledger.entries, watch, seen, pick, |seen|))
  {
    var path := MonthlyLedgerPath(out, name, month);
    LedgerPathsEndInTxt(out, name, month, out);
    var pick := MonthlyPick(seen, month);
    crashed := Walk(disk, ledger, out, watch, Undecided, path, seen, pick, true);
  }

  /** The date-argument check of v11: a non-empty argument must be six digits; the month scanned is the current one whatever the argument says. */
  predicate MonthArgumentOk(arg: Option<string>) {
    arg.None? || arg.value == [] || MatchesDigits(arg.value, 6)
  }

  /**
   * find_and_process_png_files of v11: an unknown base name or a malformed date
   * argument returns before anything is loaded or written; otherwise the current
   * month's partition is overlaid on the ledger (a missing partition leaves it as it
   * was) and the month is walked.
   */
  method FindAndProcess(disk: Disk, ledger: Ledger, table: map<string, string>, out: string, baseName: string,
                        arg: Option<string>, now: Date, seen: seq<Observation>) returns (r: ScanResult)
    modifies disk, ledger
    ensures r.UnknownBase? <==> baseName !in table
    ensures r.BadDateFormat? <==> baseName in table && !MonthArgumentOk(arg)
    ensures !r.BadDate?
    ensures r.UnknownBase? || r.BadDateFormat? ==> disk.files == old(disk.files) && ledger.entries == old(ledger.entries)
    ensures r.Scanned? || r.Crashed? ==>
      var watch := table[baseName];
      var month := FormatYm(now);
      var path := MonthlyLedgerPath(out, Lower(baseName), month);
      var loaded := LoadedEntries(old(ledger.entries), old(disk.files), path, false);
      var pick := MonthlyPick(seen, month);
      (r.Crashed? <==> exists i :: 0 <= i < |seen| && pick[i] && !Readable(old(disk.files), watch, seen[i]))
      && PngUnchanged(old(disk.files), disk.files)
      && ChangesAreCurrent(loaded, ledger.entries, disk.files)
      && EntriesExamined(old(disk.files), loaded, ledger.entries, watch, seen, pick, |seen|)
      && FilesExamined(old(disk.files), disk.files, out, watch, path, seen, pick, |seen|)
      && (r.Scanned? ==> Recorded(old(disk.files), ledger.entries, watch, seen, pick, |seen|))
  {
    if baseName !in table {
      return UnknownBase;
    }
    if !MonthArgumentOk(arg) {
      return BadDateFormat;
    }
    var watch := table[baseName];
    var name := Lower(baseName);
    var month := FormatYm(now);
    var loadedOk := ledger.Load(disk, MonthlyLedgerPath(out, name, month), false);
    var crashed := MonthWalk(disk, ledger, out, watch, name, month, seen);
    return if crashed then Crashed else Scanned;
  }

  /**
   * The start of v007 followed by its first scan cycle: an unknown base name exits;
   * the current month's partition is loaded outside any try block, so a partition
   * that cannot be read or holds a timestamp that is not a number stops the program;
   * then the month is walked. The month walked is fixed at start-up, while every
   * later load and save of v007 takes its month from the clock.
   */
  method FirstCycle(disk: Disk, ledger: Ledger, table: map<string, string>, out: string, baseName: string,
                    now: Date, seen: seq<Observation>) returns (r: ScanResult)
    modifies disk, ledger
    ensures r.UnknownBase? <==> baseName !in table
    ensures !r.BadDate? && !r.BadDateFormat?
    ensures baseName !in table || !LoadCompletes(old(disk.files), MonthlyLedgerPath(out, baseName, FormatYm(now))) ==>
      disk.files == old(disk.files)
    ensures r.UnknownBase? ==> ledger.entries == old(ledger.entries)
    ensures baseName in table && !LoadCompletes(old(disk.files), MonthlyLedgerPath(out, baseName, FormatYm(now))) ==> r.Crashed?
    ensures baseName in table && LoadCompletes(old(disk.files), MonthlyLedgerPath(out, baseName, FormatYm(now))) ==>
      var watch := table[baseName];
      var month := FormatYm(now);
      var path := MonthlyLedgerPath(out, baseName, month);
      var loaded := LoadedEntries(old(ledger.entries), old(disk.files), path, false);
      var pick := MonthlyPick(seen, month);
      (r.Crashed? <==> exists i :: 0 <= i < |seen| && pick[i] && !Readable(old(disk.files), watch, seen[i]))
      && PngUnchanged(old(disk.files), disk.files)
      && ChangesAreCurrent(loaded, ledger.entries, disk.files)
      && EntriesExamined(old(disk.files), loaded, ledger.entries, watch, seen, pick, |seen|)
      && FilesExamined(old(disk.files), disk.files, out, watch, path, seen, pick, |seen|)
      && (r.Scanned? ==> Recorded(old(disk.files), ledger.entries, watch, seen, pick, |seen|))
  {
    if baseName !in table {
      return UnknownBase;
    }
    var watch := table[baseName];
    var month := FormatYm(now);
    var loadedOk := ledger.Load(disk, MonthlyLedgerPath(out, baseName, month), false);
    if !loadedOk {
      return Crashed;
    }
    var crashed := MonthWalk(disk, ledger, out, watch, baseName, month, seen);
    return if crashed then Crashed else Scanned;
  }
}
