/**
 * Windows path strings as the watcher builds and takes them apart with os.path:
 * joining, the last component, the extension, the relative path of a file
 * below the watched folder, the ledger partition files and the output files
 * of a conversion.
 */
module Paths {
  import opened Text

  /** os.sep on Windows, the platform the watcher is deployed on. */
  const SEP: char := '\\'

  /** ntpath accepts both slashes as separators. */
  predicate IsSep(c: char) {
    c == '\\' || c == '/'
  }

  /** A single directory or file name as os.walk reports it: no separator inside. */
  predicate IsName(s: string) {
    '\\' !in s && '/' !in s
  }

  /** os.path.join(a, b) for a relative component b: a separator goes in unless a is empty or already ends with one. */
  function JoinPath(a: string, b: string): (p: string)
    ensures EndsWith(p, b)
    ensures |p| == |a| + |b| + (if a == [] || IsSep(a[|a| - 1]) then 0 else 1) && p[..|a|] == a
  {
    if a == [] || IsSep(a[|a| - 1]) then a + b else a + [SEP] + b
  }

  /** os.path.join(p0, p1, ..., pn) over relative components. */
  function JoinAll(parts: seq<string>): (p: string)
    requires |parts| >= 1
    ensures EndsWith(p, parts[|parts| - 1])
    decreases |parts|
  {
    if |parts| == 1 then parts[0] else JoinPath(JoinAll(parts[..|parts| - 1]), parts[|parts| - 1])
  }

  /** watch.rstrip('\\'): every trailing backslash removed. */
  function RStripBackslash(s: string): (r: string)
    ensures |r| <= |s| && r == s[..|r|]
    ensures r == [] || r[|r| - 1] != '\\'
    ensures forall i :: |r| <= i < |s| ==> s[i] == '\\'
    decreases |s|
  {
    if s != [] && s[|s| - 1] == '\\' then RStripBackslash(s[..|s| - 1]) else s
  }

  /** os.path.basename(p): the longest tail of p without a separator. */
  function BaseName(p: string): (r: string)
    ensures EndsWith(p, r) && IsName(r)
    ensures |r| < |p| ==> IsSep(p[|p| - |r| - 1])
    decreases |p|
  {
    if p == [] || IsSep(p[|p| - 1]) then []
    else
      var r := BaseName(p[..|p| - 1]);
      NameSnoc(p, r);
      r + [p[|p| - 1]]
  }

  /** A name ending the path without its last character, extended by that non-separator character, is a name ending the path. */
  lemma NameSnoc(p: string, r: string)
    requires p != [] && !IsSep(p[|p| - 1])
    requires EndsWith(p[..|p| - 1], r) && IsName(r)
    requires |r| < |p| - 1 ==> IsSep(p[|p| - |r| - 2])
    ensures EndsWith(p, r + [p[|p| - 1]]) && IsName(r + [p[|p| - 1]])
    ensures |r| + 1 < |p| ==> IsSep(p[|p| - |r| - 2])
  {
    var q := p[..|p| - 1];
    var x := r + [p[|p| - 1]];
    assert q[|q| - |r|..] == r;
    assert p[|p| - |x|..] == q[|q| - |r|..] + [p[|p| - 1]];
    assert forall c :: c in x ==> c in r || c == p[|p| - 1];
  }

  predicate AllDots(s: string) {
    forall j :: 0 <= j < |s| ==> s[j] == '.'
  }

  /** Index of the last '.' in s, or -1 when there is none. */
  function LastDot(s: string): (i: int)
    ensures -1 <= i < |s|
    ensures i >= 0 ==> s[i] == '.'
    ensures forall j :: i < j < |s| ==> s[j] != '.'
    decreases |s|
  {
    if s == [] then -1 else if s[|s| - 1] == '.' then |s| - 1 else LastDot(s[..|s| - 1])
  }

  /**
   * os.path.splitext(name)[0] for a file name: everything before the last dot,
   * unless only dots precede that dot (".png" and "..png" have no extension).
   */
  function Stem(name: string): (r: string)
    ensures |r| <= |name| && r == name[..|r|]
    ensures r != name ==> name[|r|] == '.' && !AllDots(r) && forall j :: |r| < j < |name| ==> name[j] != '.'
  {
    var d := LastDot(name);
    if d >= 0 && !AllDots(name[..d]) then name[..d] else name
  }

  /** splitext cuts the name exactly when some dot has a non-dot character before it. */
  lemma StemCutsAtDot(name: string)
    ensures Stem(name) != name <==> exists i, j :: 0 <= j < i < |name| && name[i] == '.' && name[j] != '.'
  {
    var d := LastDot(name);
    if d >= 0 && !AllDots(name[..d]) {
      var j :| 0 <= j < d && name[..d][j] != '.';
      assert name[j] != '.';
    } else {
      assert forall i, j :: 0 <= j < i < |name| && name[i] == '.' ==> name[j] == '.' by {
        forall i, j | 0 <= j < i < |name| && name[i] == '.' ensures name[j] == '.' {
          assert name[..d][j] == name[j];
        }
      }
    }
  }

  /** os.path.relpath(file, watch) for a file os.walk found below watch, one component per directory level. */
  function RelativePath(parts: seq<string>): string
    requires |parts| >= 1
  {
    Join(parts, SEP)
  }

  /** The absolute path os.walk hands out for the file with these components below watch. */
  function SourcePath(watch: string, parts: seq<string>): string {
    JoinAll([watch] + parts)
  }

  /** Splitting the relative path of a walked file on os.sep gives back its walk components. */
  lemma RelativePathSplits(parts: seq<string>)
    requires |parts| >= 1
    requires forall i :: 0 <= i < |parts| ==> IsName(parts[i])
    ensures Split(RelativePath(parts), SEP) == parts
  {
    SplitJoin(parts, SEP);
  }

  // ---- ledger partition files ----

  const LEDGER_PREFIX: string := "processed_files_"

  /** date_str[:6]: the first six characters, or all of them when there are fewer. */
  function Prefix6(s: string): (r: string)
    ensures r == s[..if |s| < 6 then |s| else 6]
  {
    if |s| < 6 then s else s[..6]
  }

  /** The file a ledger partition lives in: its name ends in the partition's key and ".txt". */
  function LedgerFileName(name: string, key: string): string {
    name + "_" + LEDGER_PREFIX + key + ".txt"
  }

  /** Daily partition (v012, v013): <out>\mccb\<name>\Processed_files\<YYYYMM>\<name>_processed_files_<YYYYMMDD>.txt */
  function DailyLedgerPath(out: string, name: string, date: string): string {
    JoinAll([out, "mccb", name, "Processed_files", Prefix6(date), LedgerFileName(name, date)])
  }

  /** Monthly partition (v11, v007, v004): folder and file suffix are both the YYYYMM string. */
  function MonthlyLedgerPath(out: string, name: string, month: string): string {
    JoinAll([out, "mccb", name, "Processed_files", month, LedgerFileName(name, month)])
  }

  /** Log-folder partition (v002): <log_folder>\processed_files_<YYYYMMDD>.txt */
  function LogFolderLedgerPath(logFolder: string, date: string): string {
    JoinPath(logFolder, LEDGER_PREFIX + date + ".txt")
  }

  /** A monthly partition is the daily layout keyed by a six-character month: folder and suffix coincide. */
  lemma MonthlyIsDailyLayout(out: string, name: string, month: string)
    requires |month| == 6
    ensures MonthlyLedgerPath(out, name, month) == DailyLedgerPath(out, name, month)
    ensures EndsWith(MonthlyLedgerPath(out, name, month), LedgerFileName(name, month))
  {
    assert Prefix6(month) == month[..6] == month;
  }

  /** Different dates of the same length (two YYYYMMDD strings) never share a daily partition file. */
  lemma DistinctDatesDistinctLedgers(out: string, name: string, d1: string, d2: string)
    requires |d1| == |d2| && d1 != d2
    ensures DailyLedgerPath(out, name, d1) != DailyLedgerPath(out, name, d2)
  {
    var x, y := LedgerFileName(name, d1), LedgerFileName(name, d2);
    var k := |name| + 1 + |LEDGER_PREFIX|;
    assert x[k..k + |d1|] == d1;
    assert y[k..k + |d2|] == d2;
    DifferentSuffixes(DailyLedgerPath(out, name, d1), DailyLedgerPath(out, name, d2), x, y);
  }

  /** Every ledger partition is a ".txt" file. */
  lemma LedgerPathsEndInTxt(out: string, name: string, key: string, logFolder: string)
    ensures EndsWith(DailyLedgerPath(out, name, key), ".txt")
    ensures EndsWith(MonthlyLedgerPath(out, name, key), ".txt")
    ensures EndsWith(LogFolderLedgerPath(logFolder, key), ".txt")
  {
    var file := LedgerFileName(name, key);
    assert EndsWith(file, ".txt");
    EndsWithTrans(DailyLedgerPath(out, name, key), file, ".txt");
    EndsWithTrans(MonthlyLedgerPath(out, name, key), file, ".txt");
    EndsWithTrans(LogFolderLedgerPath(logFolder, key), LEDGER_PREFIX + key + ".txt", ".txt");
  }

  /** The full path of a walked file ends in its name: a PNG name makes a PNG path. */
  lemma SourcePathKeepsName(watch: string, parts: seq<string>, suffix: string)
    requires |parts| >= 1 && EndsWith(Lower(parts[|parts| - 1]), suffix)
    ensures EndsWith(Lower(SourcePath(watch, parts)), suffix)
  {
    var name := parts[|parts| - 1];
    assert ([watch] + parts)[|parts|] == name;
    LowerKeepsSuffix(SourcePath(watch, parts), name);
    EndsWithTrans(Lower(SourcePath(watch, parts)), Lower(name), suffix);
  }

  // ---- conversion outputs ----

  /** v007 to v013 and v004: <out>\mccb\<basename(watch.rstrip('\\'))>\<directories of the relative path>. */
  function MccbOutputDir(out: string, watch: string, parts: seq<string>): string
    requires |parts| >= 1
  {
    JoinAll([out, "mccb", BaseName(RStripBackslash(watch))] + parts[..|parts| - 1])
  }

  /** v002: <out>\<directories of the path relative to the watch base>, without "mccb". */
  function PlainOutputDir(out: string, rel: seq<string>): string
    requires |rel| >= 1
  {
    JoinAll([out] + rel[..|rel| - 1])
  }

  /** The published output: <dir>\<stem>.jpg */
  function FinalOutput(dir: string, name: string): string {
    JoinPath(dir, Stem(name) + ".jpg")
  }

  /** v007 to v013 temp file: <dir>\<stem>.jpg.temp */
  function TempOutput(dir: string, name: string): string {
    JoinPath(dir, Stem(name) + ".jpg.temp")
  }

  /** The name prefix of the v004 and v002 temp file. */
  const LEGACY_TEMP_PREFIX: string := ".temp_"

  /** v004 and v002 temp file: <dir>\.temp_<stem>.jpg */
  function LegacyTempOutput(dir: string, name: string): string {
    JoinPath(dir, LEGACY_TEMP_PREFIX + Stem(name) + ".jpg")
  }

  /** Lower-casing keeps a suffix: what ends in ".JPG" lower-cases to something ending in ".jpg". */
  lemma LowerKeepsSuffix(s: string, suffix: string)
    requires EndsWith(s, suffix)
    ensures EndsWith(Lower(s), Lower(suffix))
  {
    var k := |s| - |suffix|;
    assert forall i :: 0 <= i < |suffix| ==> Lower(s)[k + i] == Lower(suffix)[i] by {
      forall i | 0 <= i < |suffix| ensures Lower(s)[k + i] == Lower(suffix)[i] {
        assert s[k + i] == suffix[i];
      }
    }
  }

  /** What ends in a lower-case extension other than ".png" does not lower-case to a ".png" name. */
  lemma NotPngByExtension(q: string, ext: string)
    requires EndsWith(q, ext) && |ext| >= 4 && Lower(ext) == ext && ext[|ext| - 4..] != ".png"
    ensures !EndsWith(Lower(q), ".png")
  {
    LowerKeepsSuffix(q, ext);
    OtherSuffix(Lower(q), ext);
  }

  /** A string ending in a suffix whose last four characters are not ".png" does not end in ".png". */
  lemma OtherSuffix(s: string, ext: string)
    requires EndsWith(s, ext) && |ext| >= 4 && ext[|ext| - 4..] != ".png"
    ensures !EndsWith(s, ".png")
  {
    assert s[|s| - 4..] == s[|s| - |ext|..][|ext| - 4..];
  }

  /** The output extensions are already lower case, and none is ".png". */
  lemma OutputExtensions()
    ensures Lower(".jpg") == ".jpg" && Lower(".temp") == ".temp" && Lower(".txt") == ".txt"
    ensures ".jpg" != ".png" && ".temp"[1..] != ".png" && ".txt" != ".png"
  {
  }

  /** A path whose lower-cased form ends in ".png" (a source image) never ends in a ".jpg", ".temp" or ".txt" name. */
  lemma SourceIsNotOutput(p: string, q: string, tail: string)
    requires EndsWith(Lower(p), ".png")
    requires EndsWith(q, tail) && (EndsWith(tail, ".jpg") || EndsWith(tail, ".temp") || EndsWith(tail, ".txt"))
    ensures p != q
  {
    OutputExtensions();
    if EndsWith(tail, ".jpg") {
      EndsWithTrans(q, tail, ".jpg");
      NotPngByExtension(q, ".jpg");
    } else if EndsWith(tail, ".temp") {
      EndsWithTrans(q, tail, ".temp");
      NotPngByExtension(q, ".temp");
    } else {
      EndsWithTrans(q, tail, ".txt");
      NotPngByExtension(q, ".txt");
    }
  }

  /** The temp file and the published file of one conversion are two different files: their names differ in length. */
  lemma TempIsNotFinal(dir: string, name: string)
    ensures TempOutput(dir, name) != FinalOutput(dir, name)
    ensures LegacyTempOutput(dir, name) != FinalOutput(dir, name)
  {
    var stem := Stem(name);
    assert |TempOutput(dir, name)| == |FinalOutput(dir, name)| + 5;
    assert |LegacyTempOutput(dir, name)| == |FinalOutput(dir, name)| + 6;
  }

  /** The published file ends in ".jpg", the current temp file in ".temp", the legacy temp file in ".jpg". */
  lemma OutputSuffixes(dir: string, name: string)
    ensures EndsWith(TempOutput(dir, name), ".temp")
    ensures EndsWith(FinalOutput(dir, name), ".jpg")
    ensures EndsWith(LegacyTempOutput(dir, name), ".jpg")
  {
    var stem := Stem(name);
    EndsWithAppend(stem, ".jpg.temp");
    assert EndsWith(".jpg.temp", ".temp");
    EndsWithTrans(stem + ".jpg.temp", ".jpg.temp", ".temp");
    EndsWithTrans(TempOutput(dir, name), stem + ".jpg.temp", ".temp");
    EndsWithAppend(stem, ".jpg");
    EndsWithTrans(FinalOutput(dir, name), stem + ".jpg", ".jpg");
    EndsWithAppend(LEGACY_TEMP_PREFIX + stem, ".jpg");
    EndsWithTrans(LegacyTempOutput(dir, name), LEGACY_TEMP_PREFIX + stem + ".jpg", ".jpg");
  }
}
