/**
 * One conversion of a source PNG: open it, create the output folder, clear stale
 * outputs (current generations only), encode the JPEG into a temp file and rename
 * the temp file onto the published name. The source's ledger is updated only once
 * the rename has succeeded.
 */
module Conversion {
  import opened Base
  import opened Text
  import opened Paths
  import opened Rules
  import opened Storage
  import opened World
  import opened Ledger
  import opened PathLedger

  /** How a conversion ended; every failure is caught and logged by the source. */
  datatype Outcome =
    | Published(stamp: nat)      // the JPEG is at its final name; stamp is the source's modification time
    | NotOpened(error: IoError)  // the source is missing or Image.open raised
    | NoOutputDir                // os.makedirs of the output folder raised
    | StaleLocked(path: string)  // a stale output could not be removed: the conversion returns early
    | NotEncoded                 // writing the JPEG into the temp file raised
    | NotRenamed                 // os.rename raised (on Windows also when the final name exists)

  /** The disk after a conversion attempt, and how it ended. */
  datatype Effect = Effect(files: map<string, Node>, outcome: Outcome)

  /** Every step of a conversion goes through. */
  predicate Publishes(files: map<string, Node>, input: string, temp: string, final: string, a: Attempt, removeStale: bool) {
    input in files && files[input].Image? && a.open.Opened? && a.dirsOk
    && (removeStale ==> (temp in files ==> temp !in a.stuck) && (final in files ==> final !in a.stuck))
    && a.encodeOk && a.renameOk
    && (!removeStale ==> final !in files)
  }

  /**
   * The steps of convert_png_to_jpg (removeStale) and of the older convert_image
   * (no removal), on the disk as a map. Only the temp and the final path change; a
   * published JPEG is encoded from the source as it is now, in the mode the mode
   * table picks; a failed attempt never leaves a new file at the final name.
   */
  function ConvertEffect(files: map<string, Node>, input: string, temp: string, final: string,
                         g: GlobalMode, a: Attempt, removeStale: bool): (e: Effect)
    requires temp != final
    ensures forall q :: q != temp && q != final ==> Lookup(e.files, q) == Lookup(files, q)
    ensures e.outcome.Published? <==> Publishes(files, input, temp, final, a, removeStale)
    ensures e.outcome.Published? ==>
      e.outcome.stamp == files[input].mtime && temp !in e.files && final in e.files
      && e.files[final] == Jpeg(input, files[input].mtime, ChooseMode(g, a.open.native).mode)
    ensures !e.outcome.Published? ==> final !in e.files || Lookup(e.files, final) == Lookup(files, final)
  {
    if input !in files then Effect(files, NotOpened(NotFound))
    else if !files[input].Image? then Effect(files, NotOpened(Unidentified))
    else if a.open.OpenFailed? then Effect(files, NotOpened(a.open.error))
    else if !a.dirsOk then Effect(files, NoOutputDir)
    else if removeStale && temp in files && temp in a.stuck then Effect(files, StaleLocked(temp))
    else
      var f1 := if removeStale && temp in files then files - {temp} else files;
      if removeStale && final in f1 && final in a.stuck then Effect(f1, StaleLocked(final))
      else
        var f2 := if removeStale && final in f1 then f1 - {final} else f1;
        if !a.encodeOk then Effect(f2, NotEncoded)
        else
          var jpeg := Jpeg(input, files[input].mtime, ChooseMode(g, a.open.native).mode);
          var f3 := f2[temp := jpeg];
          if !a.renameOk || final in f3 then Effect(f3, NotRenamed)
          else Effect((f3 - {temp})[final := jpeg], Published(files[input].mtime))
  }

  /** The conversion steps carried out on the disk one at a time, returning at the first failure. */
  method RunConversion(disk: Disk, input: string, temp: string, final: string,
                       g: GlobalMode, a: Attempt, removeStale: bool) returns (outcome: Outcome)
    requires temp != final
    modifies disk
    ensures var e := ConvertEffect(old(disk.files), input, temp, final, g, a, removeStale);
      disk.files == e.files && outcome == e.outcome
  {
    if input !in disk.files {
      return NotOpened(NotFound);
    }
    if !disk.files[input].Image? {
      return NotOpened(Unidentified);
    }
    var mtime := disk.files[input].mtime;
    if a.open.OpenFailed? {
      return NotOpened(a.open.error);
    }
    if !a.dirsOk {
      return NoOutputDir;
    }
    if removeStale {
      if temp in disk.files {
        if temp in a.stuck {
          return StaleLocked(temp);
        }
        disk.files := disk.files - {temp};
      }
      if final in disk.files {
        if final in a.stuck {
          return StaleLocked(final);
        }
        disk.files := disk.files - {final};
      }
    }
    if !a.encodeOk {
      return NotEncoded;
    }
    var jpeg := Jpeg(input, mtime, ChooseMode(g, a.open.native).mode);
    disk.files := disk.files[temp := jpeg];
    if !a.renameOk || final in disk.files {
      return NotRenamed;
    }
    disk.files := (disk.files - {temp})[final := jpeg];
    return Published(mtime);
  }

  /**
   * convert_png_to_jpg of v007 to v013: the output goes to <out>\mccb\<watch name>\<relative
   * dir>\<stem>.jpg through <stem>.jpg.temp, and processed_files[input] is set to the
   * source's modification time only when the JPEG was published.
   */
  method ConvertAndRecord(disk: Disk, ledger: Ledger, out: string, watch: string, parts: seq<string>,
                          g: GlobalMode, a: Attempt) returns (outcome: Outcome)
    requires |parts| >= 1
    modifies disk, ledger
    ensures var name := parts[|parts| - 1];
      var dir := MccbOutputDir(out, watch, parts);
      TempOutput(dir, name) != FinalOutput(dir, name)
      && var e := ConvertEffect(old(disk.files), SourcePath(watch, parts), TempOutput(dir, name), FinalOutput(dir, name), g, a, true);
      disk.files == e.files && outcome == e.outcome
    ensures ledger.entries ==
      if outcome.Published? then old(ledger.entries)[SourcePath(watch, parts) := outcome.stamp] else old(ledger.entries)
  {
    var name := parts[|parts| - 1];
    var dir := MccbOutputDir(out, watch, parts);
    TempIsNotFinal(dir, name);
    var input := SourcePath(watch, parts);
    outcome := RunConversion(disk, input, TempOutput(dir, name), FinalOutput(dir, name), g, a, true);
    if outcome.Published? {
      ledger.entries := ledger.entries[input := outcome.stamp];
    }
  }

  /**
   * convert_image of v004 and v002: the output goes to dir\<stem>.jpg through
   * dir\.temp_<stem>.jpg, nothing stale is removed first, and the source path is
   * added to the processed set only when the JPEG was published.
   */
  method ConvertAndAdd(disk: Disk, listed: PathSet, input: string, dir: string, name: string,
                       g: GlobalMode, a: Attempt) returns (outcome: Outcome)
    modifies disk, listed
    ensures LegacyTempOutput(dir, name) != FinalOutput(dir, name)
      && var e := ConvertEffect(old(disk.files), input, LegacyTempOutput(dir, name), FinalOutput(dir, name), g, a, false);
      disk.files == e.files && outcome == e.outcome
    ensures listed.paths == if outcome.Published? then old(listed.paths) + {input} else old(listed.paths)
  {
    TempIsNotFinal(dir, name);
    outcome := RunConversion(disk, input, LegacyTempOutput(dir, name), FinalOutput(dir, name), g, a, false);
    if outcome.Published? {
      listed.paths := listed.paths + {input};
    }
  }

  /**
   * A conversion in which no step fails publishes in the current generations, whatever
   * stale outputs were there; in the older generations it publishes exactly when no
   * JPEG sits at the final name yet, since os.rename on Windows refuses to replace one,
   * and otherwise ends at the rename.
   */
  lemma CleanAttemptPublishes(files: map<string, Node>, input: string, temp: string, final: string,
                              g: GlobalMode, a: Attempt)
    requires temp != final && IsClean(a)
    requires input in files && files[input].Image?
    ensures ConvertEffect(files, input, temp, final, g, a, true).outcome == Published(files[input].mtime)
    ensures ConvertEffect(files, input, temp, final, g, a, false).outcome.Published? <==> final !in files
    ensures final in files ==> ConvertEffect(files, input, temp, final, g, a, false).outcome == NotRenamed
  {
  }

  /** Whatever a conversion leaves at a path it changed is a JPEG of the input, encoded in the mode the mode table picks. */
  lemma ConversionWritesChosenMode(files: map<string, Node>, input: string, temp: string, final: string,
                                   g: GlobalMode, a: Attempt, removeStale: bool, q: string)
    requires temp != final
    requires var e := ConvertEffect(files, input, temp, final, g, a, removeStale);
      q in e.files && Lookup(e.files, q) != Lookup(files, q)
    ensures input in files && files[input].Image? && a.open.Opened?
      && ConvertEffect(files, input, temp, final, g, a, removeStale).files[q]
         == Jpeg(input, files[input].mtime, ChooseMode(g, a.open.native).mode)
  {
  }

  /** A conversion rewrites only its temp and final names, which never end in ".png": every PNG on disk stays as it was. */
  lemma ConversionKeepsPngs(files: map<string, Node>, input: string, dir: string, name: string,
                            g: GlobalMode, a: Attempt, removeStale: bool, q: string)
    requires IsPngName(q)
    ensures TempOutput(dir, name) != FinalOutput(dir, name)
    ensures LegacyTempOutput(dir, name) != FinalOutput(dir, name)
    ensures Lookup(ConvertEffect(files, input, TempOutput(dir, name), FinalOutput(dir, name), g, a, removeStale).files, q) == Lookup(files, q)
    ensures Lookup(ConvertEffect(files, input, LegacyTempOutput(dir, name), FinalOutput(dir, name), g, a, removeStale).files, q) == Lookup(files, q)
  {
    TempIsNotFinal(dir, name);
    OutputSuffixes(dir, name);
    SourceIsNotOutput(q, TempOutput(dir, name), TempOutput(dir, name));
    SourceIsNotOutput(q, FinalOutput(dir, name), FinalOutput(dir, name));
    SourceIsNotOutput(q, LegacyTempOutput(dir, name), LegacyTempOutput(dir, name));
  }
}
