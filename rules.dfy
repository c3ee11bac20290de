/**
 * The small decision rules every generation of the watcher shares: which walked
 * files are candidates, which files are due, which JPEG mode an image is saved in,
 * when a file counts as completely written, and the set-ledger generations'
 * three-way choice between converting, adopting and skipping.
 */
module Rules {
  import opened Text
  import opened Paths

  /** The result folders directly below the watched folder. */
  predicate IsResultFolder(s: string) {
    s == "NG" || s == "OK" || s == "NG_OK"
  }

  /** The camera-side folders below a month folder. */
  predicate IsSideFolder(s: string) {
    s == "LEFT" || s == "LINE" || s == "LINE_TAP" || s == "LOAD" || s == "LOAD_TAP" || s == "RIGHT" || s == "TOP"
  }

  /** filename.lower().endswith(".png"): a PNG by its extension, in any letter case. */
  predicate IsPngName(name: string) {
    EndsWith(Lower(name), ".png")
  }

  /** The joined path of a walked PNG name is itself a PNG path. */
  lemma SourcePathIsPng(watch: string, parts: seq<string>)
    requires |parts| >= 1 && IsPngName(parts[|parts| - 1])
    ensures IsPngName(SourcePath(watch, parts))
  {
    SourcePathKeepsName(watch, parts, ".png");
  }

  /**
   * The daily filter as the source states it, on the relative path of the file split
   * on os.sep: exactly four parts, a result folder, the target month, a side folder.
   */
  predicate DailyAccepts(relPath: string, month: string) {
    var parts := Split(relPath, SEP);
    |parts| == 4 && IsResultFolder(parts[0]) && parts[1] == month && IsSideFolder(parts[2])
  }

  /** The daily shape on walk components: <NG|OK|NG_OK>\<month>\<side>\<name>.png */
  predicate IsDailyCandidate(parts: seq<string>, month: string) {
    |parts| == 4 && IsResultFolder(parts[0]) && parts[1] == month && IsSideFolder(parts[2]) && IsPngName(parts[3])
  }

  /**
   * The monthly generations' nested walks: below <NG|OK|NG_OK>\<month>\<side>, at any
   * depth; a missing folder on the way simply yields no files.
   */
  predicate IsNestedCandidate(parts: seq<string>, month: string) {
    |parts| >= 4 && IsResultFolder(parts[0]) && parts[1] == month && IsSideFolder(parts[2])
    && IsPngName(parts[|parts| - 1])
  }

  /** Walk components are single names. */
  predicate AreNames(parts: seq<string>) {
    forall i :: 0 <= i < |parts| ==> IsName(parts[i])
  }

  /**
   * A walked PNG passes the daily filter on its relative path exactly when its walk
   * components have the four-part candidate shape; every daily candidate is also a
   * candidate of the monthly walks.
   */
  lemma DailyFilterShape(parts: seq<string>, month: string)
    requires |parts| >= 1 && AreNames(parts)
    ensures IsPngName(parts[|parts| - 1]) && DailyAccepts(RelativePath(parts), month)
      <==> IsDailyCandidate(parts, month)
    ensures IsDailyCandidate(parts, month) ==> IsNestedCandidate(parts, month)
  {
    RelativePathSplits(parts);
  }

  /** The file's recorded timestamp is missing or differs from its modification time now. */
  predicate IsDue(entries: map<string, nat>, p: string, mtime: nat) {
    p !in entries || entries[p] != mtime
  }

  /** Recording a file at its current modification time makes it not due, and leaves every other file's due-ness as it was. */
  lemma RecordingClearsDue(entries: map<string, nat>, p: string, mtime: nat, q: string, m: nat)
    ensures !IsDue(entries[p := mtime], p, mtime)
    ensures q != p ==> (IsDue(entries[p := mtime], q, m) <==> IsDue(entries, q, m))
  {
  }

  /** GLOBAL_GRAYSCALE_MODE: True, False or None. */
  datatype GlobalMode = Grayscale | Color | Undecided

  /** The two modes a JPEG is saved in. */
  datatype JpegMode = L | RGB

  /** The mode an image is saved in, whether it went through img.convert, and whether a warning was logged. */
  datatype ModeChoice = ModeChoice(mode: JpegMode, converted: bool, warned: bool)

  /** The mode table of the conversion step, given the image's native PIL mode. */
  function ChooseMode(g: GlobalMode, native: string): ModeChoice {
    match g
    case Grayscale => ModeChoice(L, true, false)
    case Color => ModeChoice(RGB, true, false)
    case Undecided =>
      if native == "L" then ModeChoice(L, false, false)
      else if native == "RGBA" || native == "P" then ModeChoice(RGB, true, false)
      else if native == "RGB" then ModeChoice(RGB, false, false)
      else ModeChoice(RGB, true, true)
  }

  /**
   * The mode table read as rules: a JPEG is grayscale exactly when grayscale is forced
   * or, undecided, the image is already "L"; an image is saved untouched exactly when,
   * undecided, it is already "L" or "RGB"; a warning is logged exactly for an
   * undecided image in a mode outside L, RGB, RGBA and P.
   */
  lemma ModeTable(g: GlobalMode, native: string)
    ensures ChooseMode(g, native).mode == L <==> g == Grayscale || (g == Undecided && native == "L")
    ensures !ChooseMode(g, native).converted <==> g == Undecided && (native == "L" || native == "RGB")
    ensures ChooseMode(g, native).warned
      <==> g == Undecided && native != "L" && native != "RGB" && native != "RGBA" && native != "P"
  {
  }

  /** The three-way choice of the set-ledger generations. */
  datatype Decision =
    | ConvertNew  // not listed, no JPEG: convert if stable
    | Reconvert   // listed, JPEG missing: convert again if stable
    | Adopt       // JPEG present, not listed: list it without converting
    | Skip        // listed and JPEG present: nothing to do

  function Decide(listed: bool, jpgExists: bool): Decision {
    if !listed && !jpgExists then ConvertNew
    else if listed && !jpgExists then Reconvert
    else if jpgExists && !listed then Adopt
    else Skip
  }

  /**
   * The decision read as rules: a file is converted exactly when its JPEG is missing,
   * adopted exactly when the JPEG is there but the file is not listed, and left alone
   * exactly when it is listed and its JPEG is there.
   */
  lemma DecisionTable(listed: bool, jpgExists: bool)
    ensures Decide(listed, jpgExists) in {ConvertNew, Reconvert} <==> !jpgExists
    ensures Decide(listed, jpgExists) == Adopt <==> jpgExists && !listed
    ensures Decide(listed, jpgExists) == Skip <==> jpgExists && listed
  {
  }
}
