# PNG→JPEG folder watcher: change detection and idempotent conversion

This project is a Dafny model of the scanning engine behind the PNG→JPEG watcher. The watcher walks an inspection-camera folder tree, `<watch>\<NG|OK|NG_OK>\<YYYYMM>\<side>\<name>.png`. For each new or modified PNG it writes a JPEG below an output folder, and it remembers in a "processed files" ledger what it has already converted.

The engine exists in several generations, and the model covers each of them:

- **Daily scans (v012, v013).**
  - The ledger maps source path to modification time. It is stored in one partition file per day: `<out>\mccb\<name>\Processed_files\<YYYYMM>\<name>_processed_files_<YYYYMMDD>.txt`.
  - Only four-part relative paths of the target month are accepted.
  - A file is examined only if its modification date is the target date.
- **Monthly scans (v11, v007).** The same ledger is kept in a monthly partition. The scan walks only the side folders of the current month, at any depth below them.
- **Set-ledger generations (v004, v002).**
  - The ledger is a set of paths, one per line, rewritten after every walk.
  - A three-way decision is made from "listed?" × "JPEG exists?": convert, adopt or skip.
  - v004 forces colour. v002 detects grayscale or colour from the first PNG it can open and writes into `<log folder>\processed_files_<YYYYMMDD>.txt`.

**How the model is built:**

- **Disk.** The disk is a `Disk` object holding a map from path to node: a source image with its modification time, a JPEG that remembers its source, stamp and mode, or a text file.
- **Ledger.** The timestamp ledger is a `Ledger` object with a `map<string, nat>`. The set ledger is a `PathSet` object with a `set<string>`.
- **Source file.** Each loop of the source is a method whose loop invariants tie it to a specification function. That covers:
  - reading the partition lines;
  - keeping the live entries;
  - merging;
  - writing the record lines;
  - the walk;
  - the mode detection.
- **Outside world.** Everything outside the program is an input: what `os.walk` returns, the modification date, the two size readings of the stability check, how each conversion step fares, whether a write succeeds, and the current date.

**The main results:**

- **Record after publish.** A file is recorded exactly when its JPEG was published, at the modification time it had when converted.
- **Changes are bounded.**
  - No scan ever changes a PNG.
  - The disk changes only at the ledger partition and at outputs of examined files.
  - Every ledger entry that changed is the current modification time of an examined file.
- **Clean conversions are recorded.** A stable, due file whose conversion cannot fail ends the scan recorded. In the set-ledger generations it is listed, with its JPEG present.
- **Ledger round trips.** Loading a rewritten partition gives back what was written, both for timestamp records and for path sets.
- **Ledger save.** The save keeps every record on disk and overwrites only the live in-memory entries.
- **Rule tables.** The due test, the mode table, the three-way decision, the structural filter and the date arguments are each specified as rules with both directions proved.

## Model

| member | source | states |
|---|---|---|
| Text.Strip | src/png2jpg_Convert_v013.py:107 | `line.strip()`: the result starts and ends with a non-space (Python's full `str.isspace` set), holds only characters of the line, and leaves an already stripped line as it is |
| Text.StripIsRun | src/png2jpg_Convert_v013.py:107 | what `strip()` removes is whitespace and only that: the result is a run of the line with nothing but whitespace before and after it |
| Text.SplitJoin | src/png2jpg_Convert_v013.py:309-310 | splitting the join of separator-free names on the separator gives the names back |
| Text.JoinSplit | src/png2jpg_Convert_v013.py:107 | joining the fields of a split with the separator gives the split text back |
| Text.LinesUnlines | src/png2jpg_Convert_v013.py:158-161 | reading back a file written as one `"\n"`-terminated line per item gives exactly the lines written |
| Text.ShowNatValue | src/png2jpg_Convert_v013.py:156 | the decimal text written for a timestamp reads back as the same number |
| Paths.JoinPath | src/png2jpg_Convert_v013.py:90-91 | `os.path.join(a, b)` starts with `a` and ends with `b`, with one separator added unless `a` is empty or already ends in one |
| Paths.BaseName | src/png2jpg_Convert_v013.py:187 | `os.path.basename` is the longest separator-free tail of the path |
| Paths.RStripBackslash | src/png2jpg_Convert_v013.py:187 | `rstrip('\\')` removes exactly the trailing backslashes |
| Paths.Stem | src/png2jpg_Convert_v013.py:192 | `splitext(name)[0]` is a prefix of the name; when shorter, it ends just before the last dot and is not all dots |
| Paths.StemCutsAtDot | src/png2jpg_Convert_v013.py:192 | `splitext` cuts the name iff some dot has a non-dot character before it |
| Paths.LastDot | src/png2jpg_Convert_v013.py:192 | the index found is a dot and no dot follows it |
| Paths.RelativePathSplits | src/png2jpg_Convert_v013.py:309-310 | `relpath(...).split(os.sep)` of a walked file gives its walk components |
| Paths.MonthlyIsDailyLayout | src_v001/v11.py:38-44 | the monthly partition path is the daily layout keyed by the month: folder and file suffix coincide |
| Paths.DistinctDatesDistinctLedgers | src_v001/png2jpg_Convert_v013.py:82-91 | two different date keys of the same length never share a partition file |
| Paths.LedgerPathsEndInTxt | src_v001backup/png2jpg_v002.py:35-39 | daily, monthly and log-folder partitions all end in `.txt` |
| Paths.SourcePathKeepsName | src/png2jpg_Convert_v013.py:307-308 | the joined path of a walked `.png` name is itself a `.png` path |
| Paths.SourceIsNotOutput | src/png2jpg_Convert_v013.py:193-194 | a path ending in `.png` in any case is never a `.jpg`, `.temp` or `.txt` path, so outputs and ledgers never overwrite a source |
| Paths.TempIsNotFinal | src_v001backup/png2jpg_Convert_v004.py:115-116 | the temp file (`<stem>.jpg.temp` or `.temp_<stem>.jpg`) and `<stem>.jpg` are different files |
| Paths.OutputSuffixes | src/png2jpg_Convert_v013.py:193-194 | the published file ends in `.jpg`, the current temp file in `.temp`, the legacy temp file in `.jpg` |
| Calendar.Digits | src/png2jpg_Convert_v013.py:298 | `%Y`/`%m`/`%d` print exactly `w` decimal digits |
| Calendar.DigitsValueOfDigits | src/png2jpg_Convert_v013.py:298 | the padded digits of a number below 10^w read back as the number |
| Calendar.DigitsOfDigitsValue | src/png2jpg_Convert_v013.py:292 | printing the value of a digit run with its width gives the run back |
| Calendar.ParseYmd | src/png2jpg_Convert_v013.py:292 | `strptime(s, "%Y%m%d")` accepts only eight digits that name a calendar date |
| Calendar.ParseFormatYmd | src/png2jpg_Convert_v013.py:292-298 | parsing a printed calendar date gives the date back |
| Calendar.FormatParseYmd | src/png2jpg_Convert_v013.py:292-298 | printing a parsed date gives the argument back, and its `%Y%m` is the argument's first six characters |
| Calendar.DailyDateChoice | src_v001/png2jpg_Convert_v013.py:287-298 | no or empty argument means today; an argument failing `^\d{8}$` is BadFormat; one naming no calendar date is BadDate; otherwise the argument is the target date, and its month is its first six characters |
| Rules.DailyFilterShape | src/png2jpg_Convert_v013.py:305-315 | a walked file passes the `.png` and four-part filter iff its components are `[NG/OK/NG_OK, month, side, *.png]`; every daily candidate is also a monthly candidate |
| Rules.RecordingClearsDue | src/png2jpg_Convert_v013.py:323 | a file recorded at its current time is not due, and the due-ness of every other file is unchanged |
| Rules.ModeTable | src/png2jpg_Convert_v013.py:205-222 | JPEG is L iff grayscale is forced or the undecided image is L; saved unconverted iff undecided and L or RGB; warned iff undecided and not L/RGB/RGBA/P |
| Rules.DecisionTable | src_v001backup/png2jpg_Convert_v004.py:311-328 | convert iff the JPEG is missing; adopt iff the JPEG exists and the path is not listed; skip iff both |
| LedgerFile.ParseRecordLine | src/png2jpg_Convert_v013.py:159-161 | a written `path<TAB>time` line of a recordable path and time parses back to that record |
| LedgerFile.ParsedRecordIsRecordable | src/png2jpg_Convert_v013.py:134-138 | every record the reader takes from a line could be written back as a line |
| LedgerFile.ReadDigitsValue | src/png2jpg_Convert_v013.py:110 | the digit reader under `float()` accepts exactly the non-empty runs of decimal digits, with the number they spell |
| LedgerFile.ParseShowTime | src/png2jpg_Convert_v013.py:110 | `float(str(t))` of a whole-number timestamp, written as `<digits>.0`, gives `t` back, and the text fits in one field |
| LedgerFile.RawOverlay | src/png2jpg_Convert_v013.py:133-138 | reading lines into `existing_data` never drops a key already present |
| LedgerFile.RawOverlayRecordable | src/png2jpg_Convert_v013.py:133-138 | reading lines keeps every record recordable |
| LedgerFile.RecordsOfRecordable | src/png2jpg_Convert_v013.py:130-140 | every record of any partition text can be written back |
| LedgerFile.TimeOverlay | src/png2jpg_Convert_v013.py:104-112 | loading a partition never drops a path from memory |
| LedgerFile.TimeOverlayRecordable | src/png2jpg_Convert_v013.py:105-110 | loading keeps every path in memory recordable |
| LedgerFile.TimeOverlayKeeps | src/png2jpg_Convert_v013.py:104-112 | a loaded path whose every record carries the time memory holds keeps that time |
| LedgerFile.RawOverlayRender | src/png2jpg_Convert_v013.py:158-161 | reading rewritten record lines overlays exactly the written records |
| LedgerFile.ReadBackRecords | src/png2jpg_Convert_v013.py:158-161 | the records read back from a rewritten partition are the records written |
| LedgerFile.TimeOverlayRender | src/png2jpg_Convert_v013.py:105-110 | loading a rewritten partition sets every written path to the time it was written with |
| Ledger.ExistingRecords | src/png2jpg_Convert_v013.py:130-140 | `existing_data` read from the partition holds only recordable records; a missing partition gives none |
| Ledger.SavedRecords | src/png2jpg_Convert_v013.py:142-156 | corrected save: keys are the on-disk keys plus the live in-memory paths; live paths get memory's time, other on-disk records are kept |
| Ledger.SavedRecordsAsWritten | src/png2jpg_Convert_v013.py:142-156 | save as written: live in-memory paths are written with the source's modification time read at save time; every other record read from the partition is written back unchanged |
| Ledger.SavedRecordsRecordable | src/png2jpg_Convert_v013.py:155-161 | every record the corrected save writes reads back |
| Ledger.SaveKeepsDueness | src/png2jpg_Convert_v013.py:142-161 | after save and reload, a live entry keeps memory's time, so a file due before the save stays due |
| Ledger.ReloadSingle | src/png2jpg_Convert_v013.py:104-110 | reloading a one-record partition sets that path to the written time |
| Ledger.SaveAsWrittenForgetsFailure | src/png2jpg_Convert_v013.py:143-147 | counterexample: with the save as written, a file whose reconversion failed is not due after the reload |
| Ledger.MergedIsSaved | src/png2jpg_Convert_v013.py:155-156 | overlaying the live entries on the records read gives what the corrected save writes |
| Ledger.ReadRecords | src/png2jpg_Convert_v013.py:130-138 | the read loop builds exactly the records of the partition's lines, later lines winning |
| Ledger.LiveEntries | src/png2jpg_Convert_v013.py:142-153 | the in-memory entries whose source exists, with memory's times |
| Ledger.MergeRecords | src/png2jpg_Convert_v013.py:155-156 | the merged map holds the on-disk keys and live keys, live ones written from memory |
| Ledger.RenderRecords | src/png2jpg_Convert_v013.py:158-161 | the write loop emits one record line per key, covering every key |
| Ledger.Ledger.OverlayLines | src/png2jpg_Convert_v013.py:104-112 | memory becomes the partition's records overlaid line by line; ok iff every line loaded |
| Ledger.Ledger.Load | src/png2jpg_Convert_v013.py:93-114 | records overlaid on memory; a missing partition empties memory (daily) or leaves it (monthly, `src_v001/v11.py:46-60`); ok iff the partition loaded to its end |
| Ledger.Ledger.Save | src/png2jpg_Convert_v013.py:116-164 | the partition is rewritten with exactly the corrected merged records; a failed write leaves the disk unchanged |
| Conversion.ConvertEffect | src/png2jpg_Convert_v013.py:182-234 | only temp and final change; published iff every step goes through; a published JPEG is the source at its current time in the mode-table mode; a failure never puts a new file at the final name |
| Conversion.RunConversion | src/png2jpg_Convert_v013.py:182-226 | the step-by-step conversion leaves the disk and outcome that ConvertEffect specifies |
| Conversion.ConvertAndRecord | src/png2jpg_Convert_v013.py:166-234 | outputs under `<out>\mccb\<watch name>\<dirs>` through `<stem>.jpg.temp`; the ledger gains the source's mtime iff the JPEG was published |
| Conversion.ConvertAndAdd | src_v001backup/png2jpg_Convert_v004.py:88-148 | outputs through `.temp_<stem>.jpg`, no stale removal; the path joins the set iff the JPEG was published |
| Conversion.CleanAttemptPublishes | src_v001backup/png2jpg_Convert_v004.py:138-140 | with no failing step, the current generations always publish; the set-ledger ones publish iff no JPEG is at the final name, else end at the rename |
| Conversion.ConversionWritesChosenMode | src/png2jpg_Convert_v013.py:205-224 | every path a conversion changed holds a JPEG of the opened source in the mode-table mode |
| Conversion.ConversionKeepsPngs | src/png2jpg_Convert_v013.py:193-224 | no conversion changes anything at a `.png` path |
| PathLedger.PathsOf | src_v001backup/png2jpg_Convert_v004.py:73-76 | every loaded path is stripped and has no line break |
| PathLedger.ReadBackPaths | src_v001backup/png2jpg_Convert_v004.py:68-86 | a set of stripped one-line paths, written one per line, loads back as the same set |
| PathLedger.PathSet.Load | src_v001backup/png2jpg_Convert_v004.py:68-77 | ok iff the partition is missing or readable text; the set then becomes its stripped lines (empty when missing); otherwise the set is unchanged |
| PathLedger.PathSet.Save | src_v001backup/png2jpg_Convert_v004.py:79-86 | the partition is rewritten with each path of the set on its own line |
| Scanning.ConvertWalked | src/png2jpg_Convert_v013.py:326 | PNGs unchanged, only the file's outputs change, the ledger gains it only at its current time, and always when nothing fails |
| Scanning.SaveLedger | src/png2jpg_Convert_v013.py:327 | a save changes only its `.txt` partition |
| Scanning.ConvertIfDue | src/png2jpg_Convert_v013.py:323-329 | converts and saves iff due (absent or time differs) and stable (sizes equal and positive); otherwise nothing changes; a stable, cleanly converting file ends recorded at its time |
| Scanning.ExaminedPathsMeaning | src/png2jpg_Convert_v013.py:305-335 | the examined paths are exactly the picked, readable, stable files |
| Scanning.ExaminedOutputsFrom | src/png2jpg_Convert_v013.py:305-335 | every examined output belongs to an examined file |
| Scanning.ExaminedOutputsCover | src/png2jpg_Convert_v013.py:305-335 | both outputs of every examined file are examined outputs |
| Scanning.Walk | src/png2jpg_Convert_v013.py:305-335 | PNGs unchanged; only the partition and examined outputs change; changed entries are current times of examined files; a completed walk records every clean examined file; it stops iff an unreadable picked file meets a read outside a try |
| Scanning.WalkStep | src/png2jpg_Convert_v013.py:317-335 | a picked, readable file is visited; an unreadable one is skipped, or stops the walk with nothing changed |
| DailyScan.DailyPick | src/png2jpg_Convert_v013.py:305-322 | a file is picked iff `.png` in any case, four-part target-month path, modification date equal to the target date |
| DailyScan.DailyExamined | src_v001/png2jpg_Convert_v012.py:214-234 | a daily scan examines exactly the daily candidates of the target date that are readable and stable |
| DailyScan.FindAndProcess | src_v001/png2jpg_Convert_v013.py:260-335 | unknown base / bad format / bad date return with nothing changed; otherwise reload the day's partition (missing → empty) and walk, with Walk's guarantees against the loaded ledger |
| MonthlyScan.MonthlyPick | src_v001/v11.py:213-228 | a file is picked iff below `<NG/OK/NG_OK>\<month>\<side>` at any depth and `.png` in any case |
| MonthlyScan.MonthWalk | src_v001/v11.py:213-237 | the walk with `getmtime` outside a try: crashes iff a picked file is unreadable, and keeps Walk's guarantees |
| MonthlyScan.FindAndProcess | src_v001/v11.py:181-237 | unknown base or a non-empty argument failing `^\d{6}$` returns unchanged; otherwise the current month is loaded (missing → unchanged) and walked, whatever the argument; it crashes iff a picked file is unreadable, and keeps Walk's guarantees |
| MonthlyScan.FirstCycle | src_v001backup/png2jpg_Convert_v007.py:332-414 | unknown base exits; an unreadable partition or non-numeric timestamp stops the start; otherwise the month is walked with Walk's guarantees |
| LegacyWalk.CheckPathKeepsPng | src_v001backup/png2jpg_Convert_v004.py:307-308 | the case-sensitive replace leaves a `.PNG` relative path ending in `PNG` |
| LegacyWalk.CheckPathDiffers | src_v001backup/png2jpg_v002.py:234-235 | for such a file the checked path is neither the source nor the JPEG |
| LegacyWalk.ListedJpegReconverted | src_v001backup/png2jpg_Convert_v004.py:319-322 | a listed file whose JPEG is missed by the check is reconverted, and the conversion fails at the rename |
| LegacyWalk.CheckMissesUpperCaseName | src_v001backup/png2jpg_Convert_v004.py:307-311 | counterexample: a converted, listed `<stem>.PNG` decides Reconvert instead of Skip every cycle |
| LegacyWalk.LegacyConvert | src_v001backup/png2jpg_Convert_v004.py:314-315 | only the file's temp and JPEG change, in the mode-table mode; listed iff published; a clean conversion publishes when no JPEG is there |
| LegacyWalk.CheckPathAgrees | src_v001backup/png2jpg_Convert_v004.py:306-308 | for plain directory names and a `<stem>.png` name with no other dot, the path the check as written tests is exactly the JPEG the conversion publishes, provided v004's key is the watched folder's name; v002's check always agrees on such names (`src_v001backup/png2jpg_v002.py:234-235`) |
| LegacyWalk.CheckMissesConfiguredKey | src_v001backup/png2jpg_Convert_v004.py:200-201 | counterexample: when the configured key and the watched folder's name differ, even ignoring case, a converted and listed ordinary image decides Reconvert instead of Skip and its conversion fails at the rename |
| LegacyWalk.LegacyVisit | src_v001backup/png2jpg_Convert_v004.py:306-328 | the three-way decision with the JPEG looked for where it is published, which is the check as written wherever CheckPathAgrees applies: skip and adopt write nothing; convert only when stable; a stable clean file ends listed with its JPEG, so its next decision is Skip |
| LegacyWalk.VisitedPathsMeaning | src_v001backup/png2jpg_Convert_v004.py:293-304 | the visited paths are exactly the source paths of picked files |
| LegacyWalk.VisitedOutputsFrom | src_v001backup/png2jpg_Convert_v004.py:293-304 | every visited output belongs to a picked file |
| LegacyWalk.VisitedOutputsCover | src_v001backup/png2jpg_Convert_v004.py:293-304 | both outputs of every picked file are visited outputs |
| LegacyWalk.ForcedMode | src_v001backup/png2jpg_Convert_v004.py:118-123 | a decided global mode fixes the JPEG mode whatever the image's own mode; L iff grayscale |
| LegacyWalk.LegacyWalkAll | src_v001backup/png2jpg_Convert_v004.py:293-328 | PNGs unchanged; the set only grows, by picked files; only their outputs change; every stable, readable, clean picked file is listed; with the mode decided every JPEG written is in the forced mode |
| LegacyWalk.LegacyStep | src_v001backup/png2jpg_Convert_v004.py:304-328 | one visit keeps what the walk keeps |
| LegacyMain.SaveSet | src_v001backup/png2jpg_Convert_v004.py:79-86 | only the `.txt` partition changes; a written set loads back as itself |
| LegacyMain.WalkThenSave | src_v001backup/png2jpg_Convert_v004.py:293-331 | a walk followed by the save keeps what a cycle keeps |
| LegacyMain.MccbCycle | src_v001backup/png2jpg_Convert_v004.py:248-331 | the JPEG check corrected as in Findings rows 2 and 3; colour forced: every JPEG written is RGB; walk of the month's side folders, then the whole set saved; crashes iff the save fails |
| LegacyMain.MccbStart | src_v001backup/png2jpg_Convert_v004.py:200-245 | the lower-cased base must be configured; the first cycle is MccbCycle, with its corrected JPEG check; an unreadable partition stops the start; otherwise the first cycle runs on the loaded set |
| LegacyMain.PngPick | src_v001backup/png2jpg_v002.py:230-232 | every `.png` name at any depth below the date folder is picked |
| LegacyMain.FirstOpened | src_v001backup/png2jpg_v002.py:205-221 | the index found is the first PNG that opens; every PNG before it failed to open |
| LegacyMain.ResolvedModeMeaning | src_v001backup/png2jpg_v002.py:201-226 | never undecided; grayscale iff some PNG opens as L and every PNG before it failed to open; colour when none opens |
| LegacyMain.ResolveMode | src_v001backup/png2jpg_v002.py:203-226 | the detection loop returns the resolved mode |
| LegacyMain.PlainCycle | src_v001backup/png2jpg_v002.py:199-261 | the JPEG check corrected as in Findings row 2; folder present: detect the mode, walk, and keep what a cycle keeps in that mode; folder missing: nothing but the partition changes; the set is saved either way; crashes iff the save fails |
| LegacyMain.PlainStart | src_v001backup/png2jpg_v002.py:179-199 | an argument failing `^\d{8}$` exits with nothing changed; the first cycle is PlainCycle, with its corrected JPEG check; the folder is `<base>\<arg or today>`; an unreadable partition stops the start; otherwise the first cycle runs on today's loaded set |

## Left out

- Image codec: `Image.open`, `convert` and `save` are abstracted. An `Attempt` gives the open result with the native mode, and whether each later step succeeds. Pixels are not modelled.
- Timestamps: these are whole numbers, written as `str()` writes a whole float (`1718000000.0`) and read back from plain digits or digits followed by `.0`. Fractional seconds, exponent notation, `str(float)` rounding and `datetime.fromtimestamp` are not modelled. The local modification date is an input of each observation.
- Ledger.Ledger.Load: a partition record whose timestamp is any text other than decimal digits, or digits followed by `.0`, stops the load in the model at that line. That includes texts `float()` reads: a non-zero fraction, an exponent, `123.` or `123.00`, a leading `+`, whitespace inside the field, underscores between digits, `inf` and `nan`. Real `getmtime` values usually carry a fraction, so on such partitions the model reports a stopped load where the source reads on.
- MonthlyScan.FirstCycle: for the same reason, a partition holding such a timestamp stops the start in the model, where v007 would load it.
- `time.sleep`, the `while True` loops and the scan interval are left out. The model covers one start followed by one cycle. Later cycles of v013, v11, v004 and v002 are repeated calls of their cycle on the same objects. For v004 and v002 those calls take the walk's and the save's month or date separately.
- Walk enumeration: the order of `os.walk` and the iteration order of Python dicts and sets are arbitrary inputs. A walk is a sequence of observations, and the save order is any order covering every key.
- Nested walks: in v11, v007 and v004 the outer `os.walk` can reach the same month folder more than once. The model visits each file once.
- Missing folders: a month or side folder that does not exist simply yields no observations.
- Logging, `print`, `setup_logging`, `load_config`, argparse and the `__main__` blocks are left out.
- `os.makedirs` failures of the partition folder, and a failing partition write, are folded into one `writeOk` or `ledgerWriteOk` input.
- MonthlyScan.MonthWalk: in v11 (`src_v001/v11.py:67`) and v007 (`src_v001backup/png2jpg_Convert_v007.py:93`) the save's `os.makedirs` is outside any try, so its failure raises out of the scan. The model treats it as a failed write that the scan survives, so `crashed` iff some picked file is unreadable holds only when the partition folder can be created.
- Ledger.Ledger.Save: `open(filepath, 'w')` empties the partition before writing. The model's failed write leaves the partition as it was, which is right only for a failure at `open`. A failure in the middle of the write leaves a truncated partition, and that is not modelled.
- Ledger.SavedRecords: this follows the code. The docstring of the save (`src/png2jpg_Convert_v013.py:122`) says a deleted file is removed from the list. The code never removes anything from `existing_data`: it only declines to write a vanished file's entry from memory. So the partition record of a deleted file survives every save, as the third ensures of SavedRecords states.
- Ledger.ExistingRecords: the model reads a text partition whole. In the source, a decode error part-way through the save's read of the old partition keeps the records read so far. The save then rewrites the partition from them, and the unread records are lost. That loss is not modelled.
- Ledger.Ledger.Save: every timestamp generation's save is modelled in its corrected form, the one that writes memory's time. This covers v013 (`src/png2jpg_Convert_v013.py:143-147`), v012 (`src_v001/png2jpg_Convert_v012.py:84-88`), v11 (`src_v001/v11.py:82-86`) and v007 (`src_v001backup/png2jpg_Convert_v007.py:108-113`). All four read `getmtime` at save time, as Findings row 1 describes.
- Conversion.ConvertEffect: the record after a publish is the source's modification time read before the conversion. The source reads `os.path.getmtime(input_path)` again after the rename (`src/png2jpg_Convert_v013.py:226`, `src_v001/v11.py:154`, `src_v001backup/png2jpg_Convert_v007.py:269`). The two agree because the model's disk changes during a scan only through the program's own writes. A writer that changes a PNG between the size probe and the record is not modelled, and with one the source can record a time newer than the content it encoded. In v004 and v002, which do not remove a stale temp first, a failed `img.save` onto an existing `.temp_<stem>.jpg` can leave that file truncated. The model leaves it unchanged.
- Conversion.ConvertAndRecord: it inherits the same frozen-disk assumption as ConvertEffect.
- Scanning.Readable: a successful `getmtime` is modelled as the path holding a source image. A `.png` path holding another kind of node is treated as unreadable, so it is skipped, or it stops the monthly walks. The source would read its time and fail only at `Image.open`.
- Unicode: `str.lower` is modelled on ASCII letters only. `str.strip` and `str.isspace` use Python's full whitespace set. The date tests, `^\d{8}$` and `strptime`, are modelled on ASCII `0-9`. Python's `\d` and `strptime` also accept other Unicode decimal digits, so Calendar.ParseYmd, Calendar.DailyDateChoice, MonthlyScan.FindAndProcess and LegacyMain.PlainStart reject some arguments the source accepts.
- Path forms: Windows drive letters, case-insensitive file names and `..` components are not modelled. Paths are compared as exact strings.
- Other files: the ProcessManager supervisors, both v001 watchdog/multiprocessing scripts, v009 and `unit_test.py` are not part of this model.
- MonthlyScan.FindAndProcess: the save's own `datetime.now()` is taken to fall in the scanned month. The model does not capture a month boundary crossed during a scan.
- MonthlyScan.FirstCycle: v007 hard-codes and lower-cases its base name. The model takes the name as a parameter, assumed lower-case.
- MonthlyScan.FirstCycle: v007 fixes the month it walks once, at start-up (`src_v001backup/png2jpg_Convert_v007.py:367`, `:384`). Its load and save read `datetime.now()` on every cycle (`:75`, `:91`). After a month boundary it therefore keeps walking the old month's folders and saves the whole map into the new month's partition, until it is restarted. MonthWalk uses one month for both the walk and the partition, so the model covers only cycles that start and save in the start-up month. Cycles after a month boundary are not modelled.
- LegacyMain.MccbStart: v004's hard-coded base name `"ABH125c_1"` is modelled as the `baseName` parameter. The dead `temp_target_date_str` branch is left out. The load and the save each call `datetime.now()`, modelled as `now` and `saveNow`.
- LegacyMain.PlainStart: the partition date of v002 is always today, whatever the date argument. The save's date is the separate input `saveDate`.
- LegacyMain.SaveSet: the read-back guarantee holds only for paths without line breaks or surrounding whitespace. Other paths do not survive `line.strip()`.
- LegacyWalk.LegacyVisit: the edge case where one file's legacy temp name equals another file's JPEG name is covered only through the changed-path bounds.
- LegacyMain.ResolveMode: the outcome of `Image.open` during mode detection is a separate input `opens`. It may differ from the open done later by the conversion, as it does on a real disk.

## Findings

| source | as written | input that shows it | evidently intended | confidence | as-written member | corrected member |
|---|---|---|---|---|---|---|
| src/png2jpg_Convert_v013.py:143-147 (also src_v001/png2jpg_Convert_v012.py:84-88, src_v001/v11.py:82-86, src_v001backup/png2jpg_Convert_v007.py:108-113) | save writes every live in-memory path with `os.path.getmtime` read at save time, not with the time memory holds | `P` converted at time 1, then modified (time 2); its reconversion fails, e.g. because the old JPEG is locked. Memory still says 1 and `P` is due, but the save writes 2, so after the reload `P` is not due and no JPEG of its new content exists | write the time memory holds, which is set only after a successful rename, so that a failed conversion stays due | medium, not executed | Ledger.SaveAsWrittenForgetsFailure | Ledger.SaveKeepsDueness |
| src_v001backup/png2jpg_Convert_v004.py:307-308 (also src_v001backup/png2jpg_v002.py:234-235) | the JPEG-existence check looks at the relative path with a case-sensitive `.replace(".png", ".jpg")` | a file `<stem>.PNG` is converted to `<stem>.jpg` and listed. The check looks for `...\<stem>.PNG` under the output folder, never finds it, and decides Reconvert every cycle. The conversion then fails at the rename because the JPEG exists | look for the JPEG where the conversion publishes it, `<dir>\<stem>.jpg` | high, not executed | LegacyWalk.CheckMissesUpperCaseName | LegacyWalk.LegacyVisit |
| src_v001backup/png2jpg_Convert_v004.py:308 | the JPEG-existence check looks below `<out>\mccb\<base_name>`, where `base_name` is the lower-cased configuration key (lines 200-201). convert_image publishes below `<out>\mccb\<basename of the watched folder>` (line 109) | `[BaseFolders] abh125c_1 = D:\cam\line1`. The check tests `<out>\mccb\abh125c_1\NG\<month>\LEFT\x.jpg`, but the JPEG is published at `<out>\mccb\line1\NG\<month>\LEFT\x.jpg`. So every listed image decides Reconvert every cycle, and its conversion fails at the rename | check and publish below the same folder; the model looks where convert_image publishes | high, not executed | LegacyWalk.CheckMissesConfiguredKey | LegacyWalk.LegacyVisit |
