/**
 * One call of find_and_process_png_files in the daily generations (v012, v013): the
 * base-name and date checks, the reload of the day's partition, and the walk over
 * <watch>\<NG|OK|NG_OK>\<YYYYMM>\<side>\<name>.png files modified on the target date.
 */
module DailyScan {
  import opened Base
  import opened Text
  import opened Paths
  import opened Calendar
  import opened Rules
  import opened Storage
  import opened World
  import opened Ledger
  import opened Scanning

  /**
   * The daily filter in the order the scan applies it: a ".png" name in any letter
   * case, a relative path of exactly four parts under the target month, and a
   * modification date equal to the target date.
   */
  predicate DailyPicks(o: Observation, date: Date) {
    |o.parts| >= 1 && IsPngName(o.parts[|o.parts| - 1])
    && DailyAccepts(RelativePath(o.parts), FormatYm(date)) && o.modDate == date
  }

  function DailyPick(seen: seq<Observation>, date: Date): (pick: seq<bool>)
    ensures |pick| == |seen|
    ensures forall i :: 0 <= i < |seen| ==> pick[i] == DailyPicks(seen[i], date)
  {
    seq(|seen|, i requires 0 <= i < |seen| => DailyPicks(seen[i], date))
  }

  /**
   * The files a daily scan examines are exactly the daily candidates modified on the
   * target date, whose modification time could be read and whose size was stable.
   */
  lemma DailyExamined(files: map<string, Node>, watch: string, seen: seq<Observation>, date: Date, i: int)
    requires 0 <= i < |seen| && AreNames(seen[i].parts) && |seen[i].parts| >= 1
    ensures Examined(files, watch, seen, DailyPick(seen, date), i) <==>
      IsDailyCandidate(seen[i].parts, FormatYm(date)) && seen[i].modDate == date
      && Readable(files, watch, seen[i]) && IsStable(seen[i].probe)
  {
    DailyFilterShape(seen[i].parts, FormatYm(date));
  }

  /**
   * find_and_process_png_files of v013: an unknown base name, or a date argument that
   * fails the eight-digit check or is not a calendar date, returns before anything is
   * loaded or written. Otherwise the day's partition is reloaded (a missing partition
   * empties the ledger) and every picked file is visited; a file whose modification
   * time cannot be read is logged and skipped. After the scan no PNG has changed, every
   * disk change is the partition or an output of an examined file, every changed ledger
   * entry is an examined file at its current modification time, and every examined
   * file whose conversion could not fail is recorded at its current modification time.
   */
  method FindAndProcess(disk: Disk, ledger: Ledger, table: map<string, string>, out: string, baseName: string,
                        arg: Option<string>, today: Date, seen: seq<Observation>) returns (r: ScanResult)
    requires IsCalendarDate(today)
    modifies disk, ledger
    ensures r.UnknownBase? <==> baseName !in table
    ensures r.BadDateFormat? <==> baseName in table && ChooseDailyDate(arg, today).BadFormat?
    ensures r.BadDate? <==> baseName in table && ChooseDailyDate(arg, today).BadDate?
    ensures r.Scanned? <==> baseName in table && ChooseDailyDate(arg, today).Target?
    ensures !r.Scanned? ==> disk.files == old(disk.files) && ledger.entries == old(ledger.entries)
    ensures r.Scanned? ==>
      var c := ChooseDailyDate(arg, today);
      var watch := table[baseName];
      var path := DailyLedgerPath(out, Lower(baseName), c.text);
      var loaded := LoadedEntries(old(ledger.entries), old(disk.files), path, true);
      var pick := DailyPick(seen, c.date);
      PngUnchanged(old(disk.files), disk.files)
      && ChangesAreCurrent(loaded, ledger.entries, disk.files)
      && EntriesExamined(old(disk.files), loaded, ledger.entries, watch, seen, pick, |seen|)
      && FilesExamined(old(disk.files), disk.files, out, watch, path, seen, pick, |seen|)
      && Recorded(old(disk.files), ledger.entries, watch, seen, pick, |seen|)
  {
    if baseName !in table {
      return UnknownBase;
    }
    var c := ChooseDailyDate(arg, today);
    if c.BadFormat? {
      return ScanResult.BadDateFormat;
    }
    if c.BadDate? {
      return ScanResult.BadDate;
    }
    var watch := table[baseName];
    var name := Lower(baseName);
    var path := DailyLedgerPath(out, name, c.text);
    LedgerPathsEndInTxt(out, name, c.text, out);
    var loadedOk := ledger.Load(disk, path, true);
    var pick := DailyPick(seen, c.date);
    var crashed := Walk(disk, ledger, out, watch, Undecided, path, seen, pick, false);
    return Scanned;
  }
}
