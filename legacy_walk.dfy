/**
 * The walk of the set-ledger generations (v004, v002): for each walked PNG the
 * three-way choice between converting, adopting and skipping, made from whether
 * the path is listed and whether its JPEG exists.
 */
module LegacyWalk {
  import opened Base
  import opened Text
  import opened Paths
  import opened Rules
  import opened Storage
  import opened World
  import opened PathLedger
  import opened Conversion
  import opened Scanning

  /** Where a generation puts its JPEGs: below <out>\mccb\<basename(watch)> (v004), or below <out>\<date> (v002). */
  datatype Layout = Mccb | Plain(date: string)

  /** The leading components of every output directory: <out>\mccb\<basename(watch)> or <out>\<date>. */
  function OutputRoot(layout: Layout, out: string, watch: string): seq<string> {
    match layout
    case Mccb => [out, "mccb", BaseName(RStripBackslash(watch))]
    case Plain(date) => [out, date]
  }

  /** The directory of the walked file's outputs: the root followed by the file's directories. */
  function OutputDirOf(layout: Layout, out: string, watch: string, parts: seq<string>): string
    requires |parts| >= 1
  {
    JoinAll(OutputRoot(layout, out, watch) + parts[..|parts| - 1])
  }

  /** The JPEG convert_image publishes for the walked file with these components. */
  function JpegOf(layout: Layout, out: string, watch: string, parts: seq<string>): string
    requires |parts| >= 1
  {
    FinalOutput(OutputDirOf(layout, out, watch, parts), parts[|parts| - 1])
  }

  /** The temp file convert_image encodes into before the rename. */
  function LegacyTempOf(layout: Layout, out: string, watch: string, parts: seq<string>): string
    requires |parts| >= 1
  {
    LegacyTempOutput(OutputDirOf(layout, out, watch, parts), parts[|parts| - 1])
  }

  // ---- the JPEG-existence check as written ----

  /**
   * The path the main loops of v004 and v002 test for an existing JPEG: the relative
   * path with every ".png" replaced by ".jpg" (case-sensitively), below
   * <out>\mccb\<name> (v004, name being the configured base name) or below <out>
   * (v002, the relative path starting at the date folder).
   */
  function CheckPathAsWritten(layout: Layout, out: string, name: string, parts: seq<string>): string
    requires |parts| >= 1
  {
    match layout
    case Mccb => JoinAll([out, "mccb", name, ReplaceAll(RelativePath(parts), ".png", ".jpg")])
    case Plain(date) => JoinPath(out, ReplaceAll(RelativePath([date] + parts), ".png", ".jpg"))
  }

  /** A replacement whose pattern holds a character the text lacks changes nothing. */
  lemma {:induction false} ReplaceAbsent(s: string, pattern: string, replacement: string, c: char)
    requires |pattern| > 0 && c in pattern && c !in s
    ensures ReplaceAll(s, pattern, replacement) == s
    decreases |s|
  {
    if |s| >= |pattern| {
      forall k | 0 <= k < |pattern| ensures s[..|pattern|][k] != c {
        assert s[..|pattern|][k] == s[k];
      }
      assert s[..|pattern|] != pattern;
      assert c !in s[1..];
      ReplaceAbsent(s[1..], pattern, replacement, c);
      assert s == [s[0]] + s[1..];
    }
  }

  /** A joined path lacks every character that is neither the separator nor in any part. */
  lemma {:induction false} JoinLacks(parts: seq<string>, sep: char, c: char)
    requires |parts| >= 1 && c != sep && forall i :: 0 <= i < |parts| ==> c !in parts[i]
    ensures c !in Join(parts, sep)
    decreases |parts|
  {
    if |parts| > 1 {
      JoinLacks(parts[1..], sep, c);
      assert c !in parts[0] + [sep];
    }
  }

  /** A joined path ends with its last part. */
  lemma {:induction false} JoinEnds(parts: seq<string>, sep: char)
    requires |parts| >= 1
    ensures EndsWith(Join(parts, sep), parts[|parts| - 1])
    decreases |parts|
  {
    if |parts| > 1 {
      JoinEnds(parts[1..], sep);
      var t := Join(parts[1..], sep);
      var s := parts[0] + [sep] + t;
      assert s[|s| - |t|..] == t;
      EndsWithTrans(s, t, parts[|parts| - 1]);
    }
  }

  /** A path joined from a non-empty first part starts with that part's first character. */
  lemma {:induction false} JoinAllHead(parts: seq<string>)
    requires |parts| >= 1 && |parts[0]| >= 1
    ensures |JoinAll(parts)| >= 1 && JoinAll(parts)[0] == parts[0][0]
    decreases |parts|
  {
    if |parts| == 1 {
      assert JoinAll(parts) == parts[0];
    } else {
      var init := parts[..|parts| - 1];
      assert init[0] == parts[0];
      JoinAllHead(init);
      var a := JoinAll(init);
      assert JoinAll(parts) == JoinPath(a, parts[|parts| - 1]);
      JoinPathHead(a, parts[|parts| - 1]);
    }
  }

  /** Joining a component onto a non-empty path keeps its first character. */
  lemma JoinPathHead(a: string, b: string)
    requires |a| >= 1
    ensures JoinPath(a, b)[0] == a[0]
  {
    var p := JoinPath(a, b);
    assert p[..|a|][0] == p[0];
  }

  /** The checked path of a "<stem>.PNG" file without a lower-case 'p' elsewhere still ends in "PNG", and starts where the output folder does. */
  lemma CheckPathKeepsPng(layout: Layout, out: string, name: string, parts: seq<string>)
    requires |parts| >= 1 && EndsWith(parts[|parts| - 1], ".PNG")
    requires forall i :: 0 <= i < |parts| ==> 'p' !in parts[i]
    requires layout.Plain? ==> 'p' !in layout.date
    requires |out| >= 1
    ensures var check := CheckPathAsWritten(layout, out, name, parts);
      EndsWith(check, "PNG") && |check| >= 1 && check[0] == out[0]
  {
    var last := parts[|parts| - 1];
    var relParts := if layout.Mccb? then parts else [layout.date] + parts;
    var rel := RelativePath(relParts);
    assert relParts[|relParts| - 1] == last;
    assert 'p' !in rel by {
      JoinLacks(relParts, SEP, 'p');
    }
    assert EndsWith(rel, "PNG") by {
      JoinEnds(relParts, SEP);
      EndsWithTrans(rel, last, ".PNG");
      EndsWithTrans(rel, ".PNG", "PNG");
    }
    ReplaceAbsent(rel, ".png", ".jpg", 'p');
    var check := CheckPathAsWritten(layout, out, name, parts);
    if layout.Mccb? {
      assert check == JoinAll([out, "mccb", name, rel]);
      JoinAllHead([out, "mccb", name, rel]);
    } else {
      assert check == JoinPath(out, rel);
    }
    EndsWithTrans(check, rel, "PNG");
  }

  /** The source path of a "<stem>.PNG" file ends in "PNG" and starts where the watched folder does. */
  lemma SourcePathKeepsPng(watch: string, parts: seq<string>)
    requires |parts| >= 1 && EndsWith(parts[|parts| - 1], ".PNG") && |watch| >= 1
    ensures var src := SourcePath(watch, parts);
      EndsWith(src, "PNG") && |src| >= 1 && src[0] == watch[0]
  {
    var last := parts[|parts| - 1];
    var src := SourcePath(watch, parts);
    JoinAllHead([watch] + parts);
    assert ([watch] + parts)[|parts|] == last;
    EndsWithTrans(src, last, ".PNG");
    EndsWithTrans(src, ".PNG", "PNG");
  }

  /** The JPEG of a walked file ends in "jpg". */
  lemma JpegEndsInJpg(layout: Layout, out: string, watch: string, parts: seq<string>)
    requires |parts| >= 1
    ensures EndsWith(JpegOf(layout, out, watch, parts), "jpg")
  {
    var jpeg := JpegOf(layout, out, watch, parts);
    OutputSuffixes(OutputDirOf(layout, out, watch, parts), parts[|parts| - 1]);
    EndsWithTrans(jpeg, ".jpg", "jpg");
  }

  /** A name ending in ".PNG" is a PNG name to the walk's case-insensitive filter. */
  lemma UpperPngIsPng(name: string)
    requires EndsWith(name, ".PNG")
    ensures IsPngName(name)
  {
    LowerKeepsSuffix(name, ".PNG");
    assert Lower(".PNG") == ".png";
  }

  /** Under the conditions of the example, the checked path, the source, the temp file and the JPEG are four different paths. */
  lemma CheckPathDiffers(layout: Layout, out: string, watch: string, name: string, parts: seq<string>)
    requires |parts| >= 1 && EndsWith(parts[|parts| - 1], ".PNG")
    requires forall i :: 0 <= i < |parts| ==> 'p' !in parts[i]
    requires layout.Plain? ==> 'p' !in layout.date
    requires |out| >= 1 && |watch| >= 1 && out[0] != watch[0]
    ensures var check := CheckPathAsWritten(layout, out, name, parts);
      var src := SourcePath(watch, parts);
      var jpeg := JpegOf(layout, out, watch, parts);
      check != src && check != jpeg && src != jpeg && LegacyTempOf(layout, out, watch, parts) != jpeg
  {
    var src := SourcePath(watch, parts);
    var jpeg := JpegOf(layout, out, watch, parts);
    var check := CheckPathAsWritten(layout, out, name, parts);
    CheckPathKeepsPng(layout, out, name, parts);
    SourcePathKeepsPng(watch, parts);
    JpegEndsInJpg(layout, out, watch, parts);
    DifferentSuffixes(check, jpeg, "PNG", "jpg");
    DifferentSuffixes(src, jpeg, "PNG", "jpg");
    TempIsNotFinal(OutputDirOf(layout, out, watch, parts), parts[|parts| - 1]);
  }

  /**
   * A listed file whose JPEG exists, looked for at a path where nothing is, is taken
   * for a listed file with a missing JPEG: the decision is Reconvert where it should be
   * Skip, and the conversion then fails at the rename.
   */
  lemma ListedJpegReconverted(src: string, check: string, temp: string, jpeg: string, t: nat, g: GlobalMode, a: Attempt)
    requires check != src && check != jpeg && src != jpeg && temp != jpeg
    requires IsClean(a)
    ensures var files := map[src := Image(t), jpeg := Jpeg(src, t, ChooseMode(g, a.open.native).mode)];
      Decide(true, check in files) == Reconvert
      && Decide(true, jpeg in files) == Skip
      && ConvertEffect(files, src, temp, jpeg, g, a, false).outcome == NotRenamed
  {
    var files := map[src := Image(t), jpeg := Jpeg(src, t, ChooseMode(g, a.open.native).mode)];
    CleanAttemptPublishes(files, src, temp, jpeg, g, a);
  }

  /**
   * The check as written misses the JPEG of a file named "<stem>.PNG": the relative
   * path keeps its upper-case ".PNG" while the conversion publishes "<stem>.jpg". So
   * once such a file was converted and listed, every cycle decides Reconvert instead
   * of Skip, encodes the image again, and the rename then fails because the JPEG is
   * already there. (The conditions only keep the example short: no lower-case 'p'
   * elsewhere in the path, and output and watch folders that start differently.)
   */
  lemma CheckMissesUpperCaseName(layout: Layout, out: string, watch: string, name: string, parts: seq<string>,
                                 t: nat, g: GlobalMode, a: Attempt)
    requires |parts| >= 1 && EndsWith(parts[|parts| - 1], ".PNG")
    requires forall i :: 0 <= i < |parts| ==> 'p' !in parts[i]
    requires layout.Plain? ==> 'p' !in layout.date
    requires |out| >= 1 && |watch| >= 1 && out[0] != watch[0]
    requires IsClean(a)
    ensures IsPngName(parts[|parts| - 1])
    ensures var src := SourcePath(watch, parts);
      var jpeg := JpegOf(layout, out, watch, parts);
      var files := map[src := Image(t), jpeg := Jpeg(src, t, ChooseMode(g, a.open.native).mode)];
      Decide(true, CheckPathAsWritten(layout, out, name, parts) in files) == Reconvert
      && Decide(true, jpeg in files) == Skip
      && ConvertEffect(files, src, LegacyTempOf(layout, out, watch, parts), jpeg, g, a, false).outcome == NotRenamed
  {
    UpperPngIsPng(parts[|parts| - 1]);
    CheckPathDiffers(layout, out, watch, name, parts);
    ListedJpegReconverted(SourcePath(watch, parts), CheckPathAsWritten(layout, out, name, parts),
                          LegacyTempOf(layout, out, watch, parts), JpegOf(layout, out, watch, parts), t, g, a);
  }

  // ---- where the check as written agrees, and where the configured key breaks it ----

  /** A path component without separators or dots, as the camera folders and file stems are named. */
  predicate PlainName(s: string) {
    s != [] && IsName(s) && '.' !in s
  }

  /** Walk components of an ordinary image: plain directory names and a plain stem followed by lower-case ".png". */
  predicate OrdinaryPngParts(parts: seq<string>) {
    |parts| >= 1
    && (forall i :: 0 <= i < |parts| - 1 ==> PlainName(parts[i]))
    && EndsWith(parts[|parts| - 1], ".png") && PlainName(parts[|parts| - 1][..|parts[|parts| - 1]| - 4])
  }

  /** Joining one more part onto a non-empty list puts a separator before it. */
  lemma {:induction false} JoinSnoc(ds: seq<string>, x: string, sep: char)
    requires |ds| >= 1
    ensures Join(ds + [x], sep) == Join(ds, sep) + [sep] + x
    decreases |ds|
  {
    var all := ds + [x];
    if |ds| == 1 {
      assert all[1..] == [x];
    } else {
      assert all[1..] == ds[1..] + [x];
      JoinSnoc(ds[1..], x, sep);
    }
  }

  /** A join of non-empty names is non-empty and ends in a character that is not a separator. */
  lemma JoinEndsInName(ds: seq<string>)
    requires |ds| >= 1 && forall i :: 0 <= i < |ds| ==> ds[i] != [] && IsName(ds[i])
    ensures var b := Join(ds, SEP); b != [] && !IsSep(b[|b| - 1])
  {
    var b := Join(ds, SEP);
    var l := ds[|ds| - 1];
    JoinEnds(ds, SEP);
    assert b[|b| - 1] == l[|l| - 1];
    assert l[|l| - 1] in l;
  }

  /** Joining b and then q onto a is joining "b\q" onto a, when b does not end in a separator. */
  lemma JoinPathTwice(a: string, b: string, q: string)
    requires b != [] && !IsSep(b[|b| - 1])
    ensures JoinPath(JoinPath(a, b), q) == JoinPath(a, b + [SEP] + q)
  {
    var a' := if a == [] || IsSep(a[|a| - 1]) then a else a + [SEP];
    var ab := a' + b;
    assert JoinPath(a, b) == ab;
    assert ab[|ab| - 1] == b[|b| - 1];
    assert JoinPath(ab, q) == ab + [SEP] + q;
    RegroupJoin(a', b, q);
  }

  lemma RegroupJoin(x: string, b: string, q: string)
    ensures x + b + [SEP] + q == x + (b + [SEP] + q)
  {
  }

  /** os.path.join with one more component appended. */
  lemma JoinAllSnoc(xs: seq<string>, q: string)
    requires |xs| >= 1
    ensures JoinAll(xs + [q]) == JoinPath(JoinAll(xs), q)
  {
    var all := xs + [q];
    assert all[..|all| - 1] == xs;
  }

  /** os.path.join over a root followed by plain components is the root joined with the components' relative path. */
  lemma {:induction false} JoinAllSplit(root: seq<string>, qs: seq<string>)
    requires |root| >= 1 && |qs| >= 1
    requires forall i :: 0 <= i < |qs| ==> qs[i] != [] && IsName(qs[i])
    ensures JoinAll(root + qs) == JoinPath(JoinAll(root), Join(qs, SEP))
    decreases |qs|
  {
    var init := qs[..|qs| - 1];
    var q := qs[|qs| - 1];
    assert init + [q] == qs;
    assert root + qs == (root + init) + [q];
    if |qs| == 1 {
      assert root + init == root;
      JoinAllSnoc(root, q);
    } else {
      JoinAllSnoc(root + init, q);
      JoinAllSplit(root, init);
      JoinEndsInName(init);
      JoinPathTwice(JoinAll(root), Join(init, SEP), q);
      JoinSnoc(init, q, SEP);
    }
  }

  /** Replacing ".png" by ".jpg" in a dotless text followed by ".png" changes only that extension. */
  lemma {:induction false} ReplaceFinalPng(x: string)
    requires '.' !in x
    ensures ReplaceAll(x + ".png", ".png", ".jpg") == x + ".jpg"
    decreases |x|
  {
    var s := x + ".png";
    if x == [] {
      assert s[..4] == ".png" && s[4..] == [];
    } else {
      assert s[0] == x[0] && x[0] in x;
      assert s[1..] == x[1..] + ".png";
      assert forall c :: c in x[1..] ==> c in x;
      ReplaceFinalPng(x[1..]);
      assert x == [x[0]] + x[1..];
    }
  }

  /** A directory path, a separator, a stem and an extension, grouped either way. */
  lemma Regroup(b: string, stem: string, ext: string)
    ensures b + [SEP] + (stem + ext) == (b + [SEP] + stem) + ext
  {
  }

  /** The replace of the check, on a relative path of plain names ending in "<stem>.png", gives the path ending in "<stem>.jpg". */
  lemma ReplaceInRelativePath(ds: seq<string>, stem: string)
    requires forall i :: 0 <= i < |ds| ==> '.' !in ds[i]
    requires '.' !in stem
    ensures ReplaceAll(Join(ds + [stem + ".png"], SEP), ".png", ".jpg") == Join(ds + [stem + ".jpg"], SEP)
  {
    if ds == [] {
      assert [stem + ".png"] == ds + [stem + ".png"] && [stem + ".jpg"] == ds + [stem + ".jpg"];
      ReplaceFinalPng(stem);
    } else {
      var b := Join(ds, SEP);
      var x := b + [SEP] + stem;
      Regroup(b, stem, ".png");
      Regroup(b, stem, ".jpg");
      JoinSnoc(ds, stem + ".png", SEP);
      JoinSnoc(ds, stem + ".jpg", SEP);
      JoinLacks(ds, SEP, '.');
      ReplaceFinalPng(x);
    }
  }

  /** The check as written, below a root, on plain directories and "<stem>.png", looks at the root joined with the directories and "<stem>.jpg". */
  lemma CheckedIsJoined(pre: seq<string>, ds: seq<string>, stem: string)
    requires |pre| >= 1
    requires forall i :: 0 <= i < |ds| ==> PlainName(ds[i])
    requires PlainName(stem)
    ensures JoinPath(JoinAll(pre), ReplaceAll(Join(ds + [stem + ".png"], SEP), ".png", ".jpg"))
      == JoinAll(pre + ds + [stem + ".jpg"])
  {
    var qs := ds + [stem + ".jpg"];
    ReplaceInRelativePath(ds, stem);
    forall i | 0 <= i < |qs| ensures qs[i] != [] && IsName(qs[i]) {
      if i == |ds| {
        assert forall c :: c in stem + ".jpg" ==> c in stem || c in ".jpg";
      }
    }
    assert pre + ds + [stem + ".jpg"] == pre + qs;
    JoinAllSplit(pre, qs);
  }

  /** The stem os.path.splitext finds in "<stem>.png" for a plain stem. */
  lemma StemOfPng(stem: string)
    requires PlainName(stem)
    ensures Stem(stem + ".png") == stem
  {
    var name := stem + ".png";
    assert name[|stem|] == '.';
    var d := LastDot(name);
    assert d >= |stem|;
    assert name[|stem| + 1] == 'p' && name[|stem| + 2] == 'n' && name[|stem| + 3] == 'g';
    assert d == |stem|;
    assert name[..d] == stem;
    assert stem[0] in stem;
    assert !AllDots(stem);
  }

  /** The components of an ordinary image: its plain directories, then "<stem>.png". */
  lemma SplitOrdinary(parts: seq<string>) returns (dirs: seq<string>, stem: string)
    requires OrdinaryPngParts(parts)
    ensures parts == dirs + [stem + ".png"] && PlainName(stem)
    ensures forall i :: 0 <= i < |dirs| ==> PlainName(dirs[i])
  {
    var last := parts[|parts| - 1];
    stem := last[..|last| - 4];
    dirs := parts[..|parts| - 1];
    assert last == stem + ".png";
    assert parts == dirs + [last];
  }

  /** The folders below which the check as written looks: <out>\mccb\<key> (v004) or <out>\<date> (v002). */
  function CheckRoot(layout: Layout, out: string, key: string): seq<string> {
    match layout
    case Mccb => [out, "mccb", key]
    case Plain(date) => [out, date]
  }

  /** The JPEG of "<stem>.png" is "<stem>.jpg" joined below the output root and the directories. */
  lemma JpegOfOrdinary(layout: Layout, out: string, watch: string, dirs: seq<string>, stem: string)
    requires PlainName(stem)
    ensures JpegOf(layout, out, watch, dirs + [stem + ".png"]) == JoinAll(OutputRoot(layout, out, watch) + dirs + [stem + ".jpg"])
  {
    var parts := dirs + [stem + ".png"];
    assert parts[..|parts| - 1] == dirs && parts[|parts| - 1] == stem + ".png";
    StemOfPng(stem);
    JoinAllSnoc(OutputRoot(layout, out, watch) + dirs, stem + ".jpg");
  }

  /** The check as written for "<stem>.png" below plain directories is "<stem>.jpg" joined below the check root and the directories. */
  lemma CheckOfOrdinary(layout: Layout, out: string, key: string, dirs: seq<string>, stem: string)
    requires PlainName(stem) && forall i :: 0 <= i < |dirs| ==> PlainName(dirs[i])
    requires layout.Plain? ==> PlainName(layout.date)
    ensures CheckPathAsWritten(layout, out, key, dirs + [stem + ".png"]) == JoinAll(CheckRoot(layout, out, key) + dirs + [stem + ".jpg"])
  {
    match layout {
      case Mccb => KeyedCheckOfOrdinary(out, key, dirs, stem);
      case Plain(date) => DatedCheckOfOrdinary(out, date, dirs, stem);
    }
  }

  lemma KeyedCheckOfOrdinary(out: string, key: string, dirs: seq<string>, stem: string)
    requires PlainName(stem) && forall i :: 0 <= i < |dirs| ==> PlainName(dirs[i])
    ensures CheckPathAsWritten(Mccb, out, key, dirs + [stem + ".png"]) == JoinAll([out, "mccb", key] + dirs + [stem + ".jpg"])
  {
    var pre := [out, "mccb", key];
    var r := ReplaceAll(Join(dirs + [stem + ".png"], SEP), ".png", ".jpg");
    assert CheckPathAsWritten(Mccb, out, key, dirs + [stem + ".png"]) == JoinAll([out, "mccb", key, r]);
    Regroup5(out, key, r);
    JoinAllSnoc(pre, r);
    CheckedIsJoined(pre, dirs, stem);
  }

  lemma Regroup5(out: string, key: string, r: string)
    ensures [out, "mccb", key, r] == [out, "mccb", key] + [r]
  {
  }

  lemma DatedCheckOfOrdinary(out: string, date: string, dirs: seq<string>, stem: string)
    requires PlainName(stem) && PlainName(date) && forall i :: 0 <= i < |dirs| ==> PlainName(dirs[i])
    ensures CheckPathAsWritten(Plain(date), out, "", dirs + [stem + ".png"]) == JoinAll([out, date] + dirs + [stem + ".jpg"])
  {
    var ds := [date] + dirs;
    forall i | 0 <= i < |ds| ensures PlainName(ds[i]) {
      if i > 0 {
        assert ds[i] == dirs[i - 1];
      }
    }
    Regroup2(date, dirs, stem + ".png");
    Regroup3(out, date, dirs, stem + ".jpg");
    CheckedIsJoined([out], ds, stem);
  }

  lemma Regroup2(d: string, dirs: seq<string>, x: string)
    ensures [d] + (dirs + [x]) == ([d] + dirs) + [x]
  {
  }

  lemma Regroup3(o: string, d: string, dirs: seq<string>, x: string)
    ensures [o] + ([d] + dirs) + [x] == [o, d] + dirs + [x]
  {
  }

  /**
   * For an ordinary image the check as written looks exactly where the conversion
   * publishes the JPEG, provided v004's configured key is the watched folder's
   * name: then the as-written check and the check of LegacyVisit decide alike.
   */
  lemma CheckPathAgrees(layout: Layout, out: string, watch: string, key: string, parts: seq<string>)
    requires OrdinaryPngParts(parts)
    requires layout.Plain? ==> PlainName(layout.date)
    requires layout.Mccb? ==> key == BaseName(RStripBackslash(watch))
    ensures CheckPathAsWritten(layout, out, key, parts) == JpegOf(layout, out, watch, parts)
  {
    var dirs, stem := SplitOrdinary(parts);
    CheckOfOrdinary(layout, out, key, dirs, stem);
    JpegOfOrdinary(layout, out, watch, dirs, stem);
    assert CheckRoot(layout, out, key) == OutputRoot(layout, out, watch);
  }

  /** Paths that share their beginning and end but differ in between are different. */
  lemma MiddleDiffers(c: string, x: string, y: string, z: string)
    requires x != y
    ensures c + x + z != c + y + z
  {
    if |x| == |y| {
      assert (c + x + z)[|c|..|c| + |x|] == x;
      assert (c + y + z)[|c|..|c| + |y|] == y;
    }
  }

  /** What os.path.join puts before a relative component joined onto a: a itself, and a separator unless a ends in one. */
  function JoinPrefix(a: string): string {
    if a == [] || IsSep(a[|a| - 1]) then a else a + [SEP]
  }

  /** "<stem>.jpg" after plain directories: every component is a non-empty name. */
  lemma JpegComponents(dirs: seq<string>, stem: string)
    requires forall i :: 0 <= i < |dirs| ==> PlainName(dirs[i])
    requires PlainName(stem)
    ensures var rest := dirs + [stem + ".jpg"]; forall i :: 0 <= i < |rest| ==> rest[i] != [] && IsName(rest[i])
  {
    var rest := dirs + [stem + ".jpg"];
    forall i | 0 <= i < |rest| ensures rest[i] != [] && IsName(rest[i]) {
      if i == |dirs| {
        assert forall c :: c in stem + ".jpg" ==> c in stem || c in ".jpg";
      } else {
        assert rest[i] == dirs[i];
      }
    }
  }

  /** The JPEG path of an ordinary image below <out>\mccb\<x>: the prefix, the name x, and the rest behind a separator. */
  lemma KeyedJoin(out: string, x: string, dirs: seq<string>, stem: string)
    requires x != [] && IsName(x)
    requires forall i :: 0 <= i < |dirs| ==> PlainName(dirs[i])
    requires PlainName(stem)
    ensures JoinAll([out, "mccb", x] + dirs + [stem + ".jpg"])
      == JoinPrefix(JoinAll([out, "mccb"])) + x + ([SEP] + Join(dirs + [stem + ".jpg"], SEP))
  {
    var rest := dirs + [stem + ".jpg"];
    var xs := [x] + rest;
    Regroup6(out, x, dirs, stem + ".jpg");
    assert xs[1..] == rest;
    JpegComponents(dirs, stem);
    ConsComponents(x, rest);
    JoinAllSplit([out, "mccb"], xs);
    Regroup4(JoinPrefix(JoinAll([out, "mccb"])), x, Join(rest, SEP));
  }

  /** A non-empty name in front of non-empty names: every component is a non-empty name. */
  lemma ConsComponents(x: string, rest: seq<string>)
    requires x != [] && IsName(x)
    requires forall i :: 0 <= i < |rest| ==> rest[i] != [] && IsName(rest[i])
    ensures forall i :: 0 <= i < |[x] + rest| ==> ([x] + rest)[i] != [] && IsName(([x] + rest)[i])
  {
    var xs := [x] + rest;
    forall i | 0 <= i < |xs| ensures xs[i] != [] && IsName(xs[i]) {
      if i > 0 {
        assert xs[i] == rest[i - 1];
      }
    }
  }

  lemma Regroup4(p: string, x: string, j: string)
    ensures p + (x + [SEP] + j) == p + x + ([SEP] + j)
  {
  }

  lemma Regroup6(out: string, x: string, dirs: seq<string>, last: string)
    ensures [out, "mccb", x] + dirs + [last] == [out, "mccb"] + ([x] + (dirs + [last]))
  {
  }

  /** The v004 check below a key and the JPEG below a folder name of an ordinary image differ when the two names do. */
  lemma KeyedCheckDiffers(out: string, key: string, folder: string, dirs: seq<string>, stem: string)
    requires key != [] && IsName(key) && folder != [] && IsName(folder) && key != folder
    requires forall i :: 0 <= i < |dirs| ==> PlainName(dirs[i])
    requires PlainName(stem)
    ensures JoinAll([out, "mccb", key] + dirs + [stem + ".jpg"]) != JoinAll([out, "mccb", folder] + dirs + [stem + ".jpg"])
  {
    KeyedJoin(out, key, dirs, stem);
    KeyedJoin(out, folder, dirs, stem);
    MiddleDiffers(JoinPrefix(JoinAll([out, "mccb"])), key, folder, [SEP] + Join(dirs + [stem + ".jpg"], SEP));
  }

  /** With a key other than the folder's name, the check, the source, the temp file and the JPEG of an ordinary image are four different paths. */
  lemma KeyedCheckPaths(out: string, watch: string, key: string, parts: seq<string>)
    requires OrdinaryPngParts(parts)
    requires key != [] && IsName(key)
    requires BaseName(RStripBackslash(watch)) != [] && Lower(key) != Lower(BaseName(RStripBackslash(watch)))
    ensures var check := CheckPathAsWritten(Mccb, out, key, parts);
      var src := SourcePath(watch, parts);
      var jpeg := JpegOf(Mccb, out, watch, parts);
      check != src && check != jpeg && src != jpeg && LegacyTempOf(Mccb, out, watch, parts) != jpeg
  {
    var folder := BaseName(RStripBackslash(watch));
    var dirs, stem := SplitOrdinary(parts);
    var check := CheckPathAsWritten(Mccb, out, key, parts);
    var jpeg := JpegOf(Mccb, out, watch, parts);
    var src := SourcePath(watch, parts);
    var last := stem + ".png";
    CheckOfOrdinary(Mccb, out, key, dirs, stem);
    JpegOfOrdinary(Mccb, out, watch, dirs, stem);
    KeyedCheckDiffers(out, key, folder, dirs, stem);
    EndsWithAppend(stem, ".jpg");
    EndsWithTrans(check, stem + ".jpg", ".jpg");
    EndsWithAppend(stem, ".png");
    assert ([watch] + parts)[|parts|] == last;
    EndsWithTrans(src, last, ".png");
    OutputSuffixes(OutputDirOf(Mccb, out, watch, parts), last);
    DifferentSuffixes(check, src, ".jpg", ".png");
    DifferentSuffixes(jpeg, src, ".jpg", ".png");
    TempIsNotFinal(OutputDirOf(Mccb, out, watch, parts), last);
  }

  /**
   * The check of v004 as written looks below <out>\mccb\<key>, the lower-cased
   * configuration key, while convert_image publishes below <out>\mccb\<name of the
   * watched folder>. When the two names differ (even ignoring case), a converted
   * and listed ordinary image decides Reconvert instead of Skip every cycle, and the
   * conversion then fails at the rename because the JPEG is already there.
   */
  lemma CheckMissesConfiguredKey(out: string, watch: string, key: string, parts: seq<string>, t: nat, g: GlobalMode, a: Attempt)
    requires OrdinaryPngParts(parts)
    requires key != [] && IsName(key)
    requires BaseName(RStripBackslash(watch)) != [] && Lower(key) != Lower(BaseName(RStripBackslash(watch)))
    requires IsClean(a)
    ensures var src := SourcePath(watch, parts);
      var jpeg := JpegOf(Mccb, out, watch, parts);
      var files := map[src := Image(t), jpeg := Jpeg(src, t, ChooseMode(g, a.open.native).mode)];
      Decide(true, CheckPathAsWritten(Mccb, out, key, parts) in files) == Reconvert
      && Decide(true, jpeg in files) == Skip
      && ConvertEffect(files, src, LegacyTempOf(Mccb, out, watch, parts), jpeg, g, a, false).outcome == NotRenamed
  {
    KeyedCheckPaths(out, watch, key, parts);
    ListedJpegReconverted(SourcePath(watch, parts), CheckPathAsWritten(Mccb, out, key, parts),
                          LegacyTempOf(Mccb, out, watch, parts), JpegOf(Mccb, out, watch, parts), t, g, a);
  }

  // ---- one visit ----

  /** What convert_image does to the disk for the walked file with components parts. */
  function LegacyEffect(files: map<string, Node>, layout: Layout, out: string, watch: string, g: GlobalMode, o: Observation): Effect
    requires |o.parts| >= 1
  {
    TempIsNotFinal(OutputDirOf(layout, out, watch, o.parts), o.parts[|o.parts| - 1]);
    ConvertEffect(files, SourcePath(watch, o.parts), LegacyTempOf(layout, out, watch, o.parts),
                  JpegOf(layout, out, watch, o.parts), g, o.attempt, false)
  }

  /**
   * convert_image on a walked PNG that passed the stability gate: only the file's temp
   * and JPEG paths change, every node written there is a JPEG of the file in the mode
   * the mode table picks, and the file is listed exactly when the JPEG was published,
   * which a conversion without a failing step does when no JPEG was there yet.
   */
  method LegacyConvert(disk: Disk, listed: PathSet, layout: Layout, out: string, watch: string, g: GlobalMode, o: Observation)
    returns (outcome: Outcome)
    requires |o.parts| >= 1 && IsPngName(o.parts[|o.parts| - 1])
    modifies disk, listed
    ensures var e := LegacyEffect(old(disk.files), layout, out, watch, g, o);
      disk.files == e.files && outcome == e.outcome
    ensures listed.paths == if outcome.Published? then old(listed.paths) + {SourcePath(watch, o.parts)} else old(listed.paths)
    ensures PngUnchanged(old(disk.files), disk.files)
    ensures forall q :: Lookup(disk.files, q) != Lookup(old(disk.files), q) ==>
      q == LegacyTempOf(layout, out, watch, o.parts) || q == JpegOf(layout, out, watch, o.parts)
    ensures forall q :: q in disk.files && Lookup(disk.files, q) != Lookup(old(disk.files), q) ==>
      o.attempt.open.Opened? && disk.files[q].Jpeg? && disk.files[q].mode == ChooseMode(g, o.attempt.open.native).mode
    ensures outcome.Published? ==> JpegOf(layout, out, watch, o.parts) in disk.files
    ensures IsClean(o.attempt) && Readable(old(disk.files), watch, o) && JpegOf(layout, out, watch, o.parts) !in old(disk.files) ==>
      outcome.Published?
  {
    var input := SourcePath(watch, o.parts);
    var name := o.parts[|o.parts| - 1];
    var dir := OutputDirOf(layout, out, watch, o.parts);
    var jpeg := FinalOutput(dir, name);
    ghost var before := disk.files;
    TempIsNotFinal(dir, name);
    if IsClean(o.attempt) && Readable(before, watch, o) {
      CleanAttemptPublishes(before, input, LegacyTempOutput(dir, name), jpeg, g, o.attempt);
    }
    outcome := ConvertAndAdd(disk, listed, input, dir, name, g, o.attempt);
    forall q | IsPngName(q) ensures Lookup(disk.files, q) == Lookup(before, q) {
      ConversionKeepsPngs(before, input, dir, name, g, o.attempt, false, q);
    }
    forall q | q in disk.files && Lookup(disk.files, q) != Lookup(before, q)
      ensures o.attempt.open.Opened? && disk.files[q].Jpeg? && disk.files[q].mode == ChooseMode(g, o.attempt.open.native).mode
    {
      ConversionWritesChosenMode(before, input, LegacyTempOutput(dir, name), jpeg, g, o.attempt, false, q);
    }
  }

  /**
   * The main loop's handling of one walked PNG in v004 and v002, with the JPEG looked
   * for where the conversion publishes it: a file whose JPEG is missing is converted
   * (listed or not) when stable; a file whose JPEG exists is listed without
   * converting; a listed file whose JPEG exists is left alone. Only the file's temp
   * and JPEG paths change on disk, and a stable file whose conversion cannot fail
   * ends up listed with its JPEG in place, which makes its next decision Skip.
   */
  method LegacyVisit(disk: Disk, listed: PathSet, layout: Layout, out: string, watch: string, g: GlobalMode, o: Observation)
    requires |o.parts| >= 1 && IsPngName(o.parts[|o.parts| - 1])
    modifies disk, listed
    ensures forall q :: q in disk.files && Lookup(disk.files, q) != Lookup(old(disk.files), q) ==>
      o.attempt.open.Opened? && disk.files[q].Jpeg? && disk.files[q].mode == ChooseMode(g, o.attempt.open.native).mode
    ensures Decide(SourcePath(watch, o.parts) in old(listed.paths), JpegOf(layout, out, watch, o.parts) in old(disk.files)) == Skip ==>
      disk.files == old(disk.files) && listed.paths == old(listed.paths)
    ensures Decide(SourcePath(watch, o.parts) in old(listed.paths), JpegOf(layout, out, watch, o.parts) in old(disk.files)) == Adopt ==>
      disk.files == old(disk.files) && listed.paths == old(listed.paths) + {SourcePath(watch, o.parts)}
    ensures JpegOf(layout, out, watch, o.parts) !in old(disk.files) && !IsStable(o.probe) ==>
      disk.files == old(disk.files) && listed.paths == old(listed.paths)
    ensures JpegOf(layout, out, watch, o.parts) !in old(disk.files) && IsStable(o.probe) ==>
      var e := LegacyEffect(old(disk.files), layout, out, watch, g, o);
      disk.files == e.files
      && listed.paths == if e.outcome.Published? then old(listed.paths) + {SourcePath(watch, o.parts)} else old(listed.paths)
    ensures PngUnchanged(old(disk.files), disk.files)
    ensures forall q :: Lookup(disk.files, q) != Lookup(old(disk.files), q) ==>
      q == LegacyTempOf(layout, out, watch, o.parts) || q == JpegOf(layout, out, watch, o.parts)
    ensures listed.paths == old(listed.paths) || listed.paths == old(listed.paths) + {SourcePath(watch, o.parts)}
    ensures IsStable(o.probe) && IsClean(o.attempt) && Readable(old(disk.files), watch, o) ==>
      SourcePath(watch, o.parts) in listed.paths && JpegOf(layout, out, watch, o.parts) in disk.files
  {
    var input := SourcePath(watch, o.parts);
    var jpeg := JpegOf(layout, out, watch, o.parts);
    var isListed := input in listed.paths;
    var jpegThere := jpeg in disk.files;
    DecisionTable(isListed, jpegThere);
    if !jpegThere {
      if IsStable(o.probe) {
        var outcome := LegacyConvert(disk, listed, layout, out, watch, g, o);
      }
    } else if !isListed {
      listed.paths := listed.paths + {input};
    }
  }

  // ---- the walk ----

  /** Observation i was picked by the walk's filter. */
  predicate Visited(seen: seq<Observation>, pick: seq<bool>, i: int)
    requires |pick| == |seen|
  {
    0 <= i < |seen| && pick[i] && |seen[i].parts| >= 1
  }

  /** The source paths of the files visited among the first n observations. */
  function VisitedPaths(watch: string, seen: seq<Observation>, pick: seq<bool>, n: nat): set<string>
    requires |pick| == |seen| && n <= |seen|
  {
    if n == 0 then {}
    else (VisitedPaths(watch, seen, pick, n - 1)
          + if Visited(seen, pick, n - 1) then {SourcePath(watch, seen[n - 1].parts)} else {})
  }

  /** The temp and JPEG paths of the files visited among the first n observations. */
  function VisitedOutputs(layout: Layout, out: string, watch: string, seen: seq<Observation>, pick: seq<bool>, n: nat): set<string>
    requires |pick| == |seen| && n <= |seen|
  {
    if n == 0 then {}
    else (VisitedOutputs(layout, out, watch, seen, pick, n - 1)
          + if Visited(seen, pick, n - 1)
            then {LegacyTempOf(layout, out, watch, seen[n - 1].parts), JpegOf(layout, out, watch, seen[n - 1].parts)} else {})
  }

  /** The visited paths are exactly the source paths of the observations the filter picked. */
  lemma {:induction false} VisitedPathsMeaning(watch: string, seen: seq<Observation>, pick: seq<bool>, n: nat, p: string)
    requires |pick| == |seen| && n <= |seen|
    ensures p in VisitedPaths(watch, seen, pick, n) <==>
      exists j :: 0 <= j < n && Visited(seen, pick, j) && SourcePath(watch, seen[j].parts) == p
  {
    if n > 0 {
      VisitedPathsMeaning(watch, seen, pick, n - 1, p);
    }
  }

  /** Every visited output is the temp file or the JPEG of a file visited among the first n. */
  lemma {:induction false} VisitedOutputsFrom(layout: Layout, out: string, watch: string, seen: seq<Observation>, pick: seq<bool>, n: nat, q: string)
    requires |pick| == |seen| && n <= |seen|
    requires q in VisitedOutputs(layout, out, watch, seen, pick, n)
    ensures exists j :: (0 <= j < n && Visited(seen, pick, j)
      && (q == LegacyTempOf(layout, out, watch, seen[j].parts) || q == JpegOf(layout, out, watch, seen[j].parts)))
  {
    if q in VisitedOutputs(layout, out, watch, seen, pick, n - 1) {
      VisitedOutputsFrom(layout, out, watch, seen, pick, n - 1, q);
    }
  }

  /** Looking at more observations never shrinks what was visited. */
  lemma {:induction false} VisitedGrows(layout: Layout, out: string, watch: string, seen: seq<Observation>, pick: seq<bool>, n: nat, m: nat)
    requires |pick| == |seen| && n <= m <= |seen|
    ensures VisitedPaths(watch, seen, pick, n) <= VisitedPaths(watch, seen, pick, m)
    ensures VisitedOutputs(layout, out, watch, seen, pick, n) <= VisitedOutputs(layout, out, watch, seen, pick, m)
    decreases m - n
  {
    if n < m {
      VisitedGrows(layout, out, watch, seen, pick, n + 1, m);
    }
  }

  lemma VisitedOutputsAt(layout: Layout, out: string, watch: string, seen: seq<Observation>, pick: seq<bool>, j: nat)
    requires |pick| == |seen| && j < |seen| && Visited(seen, pick, j)
    ensures {LegacyTempOf(layout, out, watch, seen[j].parts), JpegOf(layout, out, watch, seen[j].parts)} <= VisitedOutputs(layout, out, watch, seen, pick, j + 1)
  {
  }

  /** The temp file and the JPEG of every file visited among the first n are visited outputs. */
  lemma VisitedOutputsCover(layout: Layout, out: string, watch: string, seen: seq<Observation>, pick: seq<bool>, n: nat, j: nat)
    requires |pick| == |seen| && j < n <= |seen|
    requires Visited(seen, pick, j)
    ensures LegacyTempOf(layout, out, watch, seen[j].parts) in VisitedOutputs(layout, out, watch, seen, pick, n)
    ensures JpegOf(layout, out, watch, seen[j].parts) in VisitedOutputs(layout, out, watch, seen, pick, n)
  {
    VisitedOutputsAt(layout, out, watch, seen, pick, j);
    VisitedGrows(layout, out, watch, seen, pick, j + 1, n);
  }

  /** Every disk path that changed is an output of a file visited among the first i. */
  ghost predicate OutputsVisited(files0: map<string, Node>, files: map<string, Node>, layout: Layout, out: string, watch: string,
                                 seen: seq<Observation>, pick: seq<bool>, i: nat)
    requires |pick| == |seen| && i <= |seen|
  {
    forall q :: Lookup(files, q) != Lookup(files0, q) ==> q in VisitedOutputs(layout, out, watch, seen, pick, i)
  }

  /** Every file visited among the first i that was stable, on disk and converted without a failing step is listed. */
  ghost predicate Settled(files0: map<string, Node>, listed: set<string>, watch: string, seen: seq<Observation>, pick: seq<bool>, i: nat)
    requires |pick| == |seen| && i <= |seen|
  {
    forall j :: (0 <= j < i && Visited(seen, pick, j) && IsStable(seen[j].probe) && IsClean(seen[j].attempt)
                 && Readable(files0, watch, seen[j])) ==> SourcePath(watch, seen[j].parts) in listed
  }

  /** The JPEG mode a decided global mode imposes on every image, whatever its own mode. */
  function ForcedMode(g: GlobalMode): (m: JpegMode)
    requires g != Undecided
    ensures forall native :: ChooseMode(g, native).mode == m
    ensures m == L <==> g == Grayscale
  {
    if g == Grayscale then L else RGB
  }

  /** Every disk path that changed holds a JPEG saved in mode m. */
  ghost predicate WrittenInMode(files0: map<string, Node>, files: map<string, Node>, m: JpegMode) {
    forall q :: q in files && Lookup(files, q) != Lookup(files0, q) ==> files[q].Jpeg? && files[q].mode == m
  }

  /** What the walk keeps after its first i files, against the disk and set it started from. */
  ghost predicate LegacyKept(files0: map<string, Node>, listed0: set<string>, files: map<string, Node>, listed: set<string>,
                             layout: Layout, out: string, watch: string, seen: seq<Observation>, pick: seq<bool>, i: nat)
    requires |pick| == |seen| && i <= |seen|
  {
    PngUnchanged(files0, files)
    && listed0 <= listed
    && listed - listed0 <= VisitedPaths(watch, seen, pick, i)
    && OutputsVisited(files0, files, layout, out, watch, seen, pick, i)
    && Settled(files0, listed, watch, seen, pick, i)
  }

  /**
   * The walk of one cycle in v004 and v002: every picked PNG is visited in walk order.
   * Afterwards no PNG has changed, the set has only grown and only by picked files,
   * only outputs of picked files changed on disk, and every picked file that was
   * stable, on disk and converted without a failing step is listed. With the global
   * mode decided, every JPEG the cycle writes is saved in the mode it forces.
   */
  method LegacyWalkAll(disk: Disk, listed: PathSet, layout: Layout, out: string, watch: string, g: GlobalMode,
                       seen: seq<Observation>, pick: seq<bool>)
    requires |pick| == |seen|
    requires forall i :: 0 <= i < |seen| && pick[i] ==> |seen[i].parts| >= 1 && IsPngName(seen[i].parts[|seen[i].parts| - 1])
    modifies disk, listed
    ensures LegacyKept(old(disk.files), old(listed.paths), disk.files, listed.paths, layout, out, watch, seen, pick, |seen|)
    ensures g != Undecided ==> WrittenInMode(old(disk.files), disk.files, ForcedMode(g))
  {
    ghost var files0 := disk.files;
    ghost var listed0 := listed.paths;
    var i := 0;
    while i < |seen|
      invariant 0 <= i <= |seen|
      invariant LegacyKept(files0, listed0, disk.files, listed.paths, layout, out, watch, seen, pick, i)
      invariant g != Undecided ==> WrittenInMode(files0, disk.files, ForcedMode(g))
    {
      if pick[i] {
        LegacyStep(disk, listed, layout, out, watch, g, seen, pick, i, files0, listed0);
      } else {
        LegacySkipKeeps(files0, listed0, disk.files, listed.paths, layout, out, watch, seen, pick, i);
      }
      i := i + 1;
    }
  }

  /** Visiting the i-th file, picked, keeps what the walk keeps. */
  method LegacyStep(disk: Disk, listed: PathSet, layout: Layout, out: string, watch: string, g: GlobalMode,
                    seen: seq<Observation>, pick: seq<bool>, i: nat, ghost files0: map<string, Node>, ghost listed0: set<string>)
    requires |pick| == |seen| && i < |seen| && pick[i]
    requires |seen[i].parts| >= 1 && IsPngName(seen[i].parts[|seen[i].parts| - 1])
    requires LegacyKept(files0, listed0, disk.files, listed.paths, layout, out, watch, seen, pick, i)
    requires g != Undecided ==> WrittenInMode(files0, disk.files, ForcedMode(g))
    modifies disk, listed
    ensures LegacyKept(files0, listed0, disk.files, listed.paths, layout, out, watch, seen, pick, i + 1)
    ensures g != Undecided ==> WrittenInMode(files0, disk.files, ForcedMode(g))
  {
    var o := seen[i];
    SourcePathIsPng(watch, o.parts);
    ghost var filesA, listedA := disk.files, listed.paths;
    LegacyVisit(disk, listed, layout, out, watch, g, o);
    LegacyStepKeeps(files0, listed0, filesA, listedA, disk.files, listed.paths, layout, out, watch, seen, pick, i);
    if g != Undecided {
      ModeStep(files0, filesA, disk.files, g, o.attempt);
    }
  }

  /** A visit that writes only JPEGs in the mode the mode table picks keeps a decided global mode on every JPEG written. */
  lemma ModeStep(files0: map<string, Node>, filesA: map<string, Node>, files: map<string, Node>, g: GlobalMode, a: Attempt)
    requires g != Undecided && WrittenInMode(files0, filesA, ForcedMode(g))
    requires forall q :: q in files && Lookup(files, q) != Lookup(filesA, q) ==>
      a.open.Opened? && files[q].Jpeg? && files[q].mode == ChooseMode(g, a.open.native).mode
    ensures WrittenInMode(files0, files, ForcedMode(g))
  {
    forall q | q in files && Lookup(files, q) != Lookup(files0, q)
      ensures files[q].Jpeg? && files[q].mode == ForcedMode(g)
    {
      if Lookup(files, q) == Lookup(filesA, q) {
        assert q in filesA && filesA[q] == files[q];
      }
    }
  }

  /** Passing over a file the filter did not pick keeps what the walk keeps. */
  lemma LegacySkipKeeps(files0: map<string, Node>, listed0: set<string>, files: map<string, Node>, listed: set<string>,
                        layout: Layout, out: string, watch: string, seen: seq<Observation>, pick: seq<bool>, i: nat)
    requires |pick| == |seen| && i < |seen| && !pick[i]
    requires LegacyKept(files0, listed0, files, listed, layout, out, watch, seen, pick, i)
    ensures LegacyKept(files0, listed0, files, listed, layout, out, watch, seen, pick, i + 1)
  {
    assert VisitedPaths(watch, seen, pick, i + 1) == VisitedPaths(watch, seen, pick, i);
    assert VisitedOutputs(layout, out, watch, seen, pick, i + 1) == VisitedOutputs(layout, out, watch, seen, pick, i);
  }

  /** One visit, as LegacyVisit describes it, keeps what the walk keeps. */
  lemma LegacyStepKeeps(files0: map<string, Node>, listed0: set<string>, filesA: map<string, Node>, listedA: set<string>,
                        files: map<string, Node>, listed: set<string>,
                        layout: Layout, out: string, watch: string, seen: seq<Observation>, pick: seq<bool>, i: nat)
    requires |pick| == |seen| && i < |seen| && pick[i]
    requires |seen[i].parts| >= 1 && IsPngName(SourcePath(watch, seen[i].parts))
    requires LegacyKept(files0, listed0, filesA, listedA, layout, out, watch, seen, pick, i)
    requires PngUnchanged(filesA, files)
    requires forall q :: Lookup(files, q) != Lookup(filesA, q) ==>
      q == LegacyTempOf(layout, out, watch, seen[i].parts) || q == JpegOf(layout, out, watch, seen[i].parts)
    requires listed == listedA || listed == listedA + {SourcePath(watch, seen[i].parts)}
    requires IsStable(seen[i].probe) && IsClean(seen[i].attempt) && Readable(filesA, watch, seen[i]) ==>
      SourcePath(watch, seen[i].parts) in listed
    ensures LegacyKept(files0, listed0, files, listed, layout, out, watch, seen, pick, i + 1)
  {
    var p := SourcePath(watch, seen[i].parts);
    assert PngUnchanged(files0, files) by {
      forall q | IsPngName(q) ensures Lookup(files, q) == Lookup(files0, q) {
      }
    }
    assert VisitedPaths(watch, seen, pick, i + 1) == VisitedPaths(watch, seen, pick, i) + {p};
    StepOutputsVisited(files0, filesA, files, layout, out, watch, seen, pick, i);
    assert Lookup(filesA, p) == Lookup(files0, p);
    StepSettled(files0, filesA, listedA, listed, watch, seen, pick, i);
  }

  /** The disk paths a visit changes are outputs of the visited file. */
  lemma StepOutputsVisited(files0: map<string, Node>, filesA: map<string, Node>, files: map<string, Node>,
                           layout: Layout, out: string, watch: string, seen: seq<Observation>, pick: seq<bool>, i: nat)
    requires |pick| == |seen| && i < |seen| && Visited(seen, pick, i)
    requires OutputsVisited(files0, filesA, layout, out, watch, seen, pick, i)
    requires forall q :: Lookup(files, q) != Lookup(filesA, q) ==>
      q == LegacyTempOf(layout, out, watch, seen[i].parts) || q == JpegOf(layout, out, watch, seen[i].parts)
    ensures OutputsVisited(files0, files, layout, out, watch, seen, pick, i + 1)
  {
    VisitedOutputsStep(layout, out, watch, seen, pick, i);
    ChangesWithin(files0, filesA, files, VisitedOutputs(layout, out, watch, seen, pick, i),
                  {LegacyTempOf(layout, out, watch, seen[i].parts), JpegOf(layout, out, watch, seen[i].parts)},
                  VisitedOutputs(layout, out, watch, seen, pick, i + 1));
  }

  /** A visited file adds its temp file and its JPEG to the visited outputs. */
  lemma VisitedOutputsStep(layout: Layout, out: string, watch: string, seen: seq<Observation>, pick: seq<bool>, i: nat)
    requires |pick| == |seen| && i < |seen| && Visited(seen, pick, i)
    ensures VisitedOutputs(layout, out, watch, seen, pick, i + 1)
      == VisitedOutputs(layout, out, watch, seen, pick, i) + {LegacyTempOf(layout, out, watch, seen[i].parts), JpegOf(layout, out, watch, seen[i].parts)}
  {
  }

  /** Two rounds of changes, each within a set that after covers, change only paths in after. */
  lemma ChangesWithin(files0: map<string, Node>, filesA: map<string, Node>, files: map<string, Node>,
                      before: set<string>, extra: set<string>, after: set<string>)
    requires before <= after && extra <= after
    requires forall q :: Lookup(filesA, q) != Lookup(files0, q) ==> q in before
    requires forall q :: Lookup(files, q) != Lookup(filesA, q) ==> q in extra
    ensures forall q :: Lookup(files, q) != Lookup(files0, q) ==> q in after
  {
  }

  /** A visit that lists its file whenever that file was stable, on disk and cleanly converted keeps every earlier file listed. */
  lemma StepSettled(files0: map<string, Node>, filesA: map<string, Node>, listedA: set<string>, listed: set<string>,
                    watch: string, seen: seq<Observation>, pick: seq<bool>, i: nat)
    requires |pick| == |seen| && i < |seen|
    requires Settled(files0, listedA, watch, seen, pick, i) && listedA <= listed
    requires Lookup(filesA, SourcePath(watch, seen[i].parts)) == Lookup(files0, SourcePath(watch, seen[i].parts))
    requires IsStable(seen[i].probe) && IsClean(seen[i].attempt) && Readable(filesA, watch, seen[i]) ==>
      SourcePath(watch, seen[i].parts) in listed
    ensures Settled(files0, listed, watch, seen, pick, i + 1)
  {
    forall j | 0 <= j < i + 1 && Visited(seen, pick, j) && IsStable(seen[j].probe) && IsClean(seen[j].attempt)
      && Readable(files0, watch, seen[j])
      ensures SourcePath(watch, seen[j].parts) in listed
    {
      if j == i {
        assert Readable(filesA, watch, seen[i]);
      }
    }
  }

}
