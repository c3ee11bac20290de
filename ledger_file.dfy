/**
 * The text format of a ledger partition: one "path<TAB>timestamp" record per line.
 * A reader strips each line, splits it on TAB and keeps it only when exactly two
 * fields come out; a writer writes one record per line. Timestamps are whole
 * numbers, written as str() writes a float ("1718000000.0") and read back with the
 * same value.
 */
module LedgerFile {
  import opened Base
  import opened Text

  /** PROCESSED_FILE_DELIMITER */
  const TAB: char := '\t'

  /** The line a writer emits for one record, without its terminator. */
  function RecordLine(k: string, v: string): string {
    k + [TAB] + v
  }

  /** line.strip().split(TAB), kept only when it has exactly two fields. */
  function ParseRecord(line: string): Option<(string, string)> {
    var parts := Split(Strip(line), TAB);
    if |parts| == 2 then Some((parts[0], parts[1])) else None
  }

  /** No TAB and no line break: a field that stays in one field of one line. */
  predicate Clean(s: string) {
    TAB !in s && NoLineBreak(s)
  }

  /** A path that reads back as itself from its record line. */
  predicate RecordableKey(k: string) {
    k != [] && Clean(k) && !IsSpace(k[0])
  }

  /** A timestamp text that reads back as itself from its record line. */
  predicate RecordableValue(v: string) {
    v != [] && Clean(v) && !IsSpace(v[|v| - 1])
  }

  /** A record line of a recordable path and value parses back to that path and value. */
  lemma ParseRecordLine(k: string, v: string)
    requires RecordableKey(k) && RecordableValue(v)
    ensures ParseRecord(RecordLine(k, v)) == Some((k, v))
  {
    var line := RecordLine(k, v);
    assert line[0] == k[0] && line[|line| - 1] == v[|v| - 1];
    assert Strip(line) == line;
    SplitWithoutSeparator(v, TAB);
    SplitAtFirstSeparator(k, TAB, v);
  }

  /** Whatever a line of a file parses to is itself recordable: the reader never yields a record the writer could not write back. */
  lemma ParsedRecordIsRecordable(line: string)
    requires NoLineBreak(line) && ParseRecord(line).Some?
    ensures RecordableKey(ParseRecord(line).value.0) && RecordableValue(ParseRecord(line).value.1)
  {
    var s := Strip(line);
    var parts := Split(s, TAB);
    JoinSplit(s, TAB);
    assert Join(parts[1..], TAB) == parts[1];
    assert s == parts[0] + [TAB] + parts[1];
    assert s[0] != TAB && s[|s| - 1] != TAB;
    assert parts[0] != [] && parts[1] != [];
    assert s[0] == parts[0][0] && s[|s| - 1] == parts[1][|parts[1]| - 1];
    assert forall c :: c in parts[0] ==> c in line;
    assert forall c :: c in parts[1] ==> c in line;
  }

  /** str(t) of a whole-number float timestamp: its decimal digits followed by ".0". */
  function ShowTime(t: nat): string {
    ShowNat(t) + ".0"
  }

  /** The number a non-empty run of decimal digits spells; None for any other text. */
  function ReadDigits(d: string): Option<nat>
    decreases |d|
  {
    if d == [] || !IsDigit(d[|d| - 1]) then None
    else if |d| == 1 then Some(d[0] as int - '0' as int)
    else
      match ReadDigits(d[..|d| - 1])
      case None => None
      case Some(n) => Some(n * 10 + (d[|d| - 1] as int - '0' as int))
  }

  /** ReadDigits accepts exactly the non-empty digit runs, with the value they spell. */
  lemma {:induction false} ReadDigitsValue(d: string)
    ensures ReadDigits(d) == if d != [] && AllDigits(d) then Some(DigitsValue(d)) else None
    decreases |d|
  {
    if d != [] && IsDigit(d[|d| - 1]) && |d| > 1 {
      var p := d[..|d| - 1];
      ReadDigitsValue(p);
      assert AllDigits(d) <==> AllDigits(p) by {
        assert forall i :: 0 <= i < |p| ==> p[i] == d[i];
      }
      if AllDigits(d) {
        assert DigitsValue(d) == DigitsValue(p) * 10 + (d[|d| - 1] as int - '0' as int);
      }
    } else if |d| == 1 && IsDigit(d[0]) {
      assert d[..0] == [];
    }
  }

  /**
   * float(v) on a timestamp field: a run of decimal digits, optionally followed by
   * ".0", reads as that whole number; any other text is a ValueError (None).
   */
  function ParseTime(v: string): Option<nat> {
    if |v| >= 2 && v[|v| - 2] == '.' && v[|v| - 1] == '0' then ReadDigits(v[..|v| - 2]) else ReadDigits(v)
  }

  /** A written timestamp reads back as the same timestamp and fits in one record field. */
  lemma ParseShowTime(t: nat)
    ensures ParseTime(ShowTime(t)) == Some(t)
    ensures RecordableValue(ShowTime(t))
  {
    var d := ShowNat(t);
    var s := ShowTime(t);
    ShowNatValue(t);
    ReadDigitsValue(d);
    assert s[..|s| - 2] == d;
    assert forall c :: c in d ==> IsDigit(c) by {
      forall c | c in d ensures IsDigit(c) {
        var i :| 0 <= i < |d| && d[i] == c;
      }
    }
    assert forall c :: c in s ==> c in d || c == '.' || c == '0';
  }

  /** existing_data built from the lines of a partition, one record at a time: a later line for the same path wins. */
  function RawOverlay(m: map<string, string>, lines: seq<string>): (r: map<string, string>)
    ensures m.Keys <= r.Keys
    decreases |lines|
  {
    if lines == [] then m
    else
      match ParseRecord(lines[0])
      case None => RawOverlay(m, lines[1..])
      case Some(rec) => RawOverlay(m[rec.0 := rec.1], lines[1..])
  }

  /** The records of a partition file's text. */
  function RecordsOf(text: string): map<string, string> {
    RawOverlay(map[], Lines(text))
  }

  predicate AllRecordable(w: map<string, string>) {
    forall k :: k in w ==> RecordableKey(k) && RecordableValue(w[k])
  }

  /** Reading lines into recordable records keeps them recordable. */
  lemma {:induction false} RawOverlayRecordable(m: map<string, string>, lines: seq<string>)
    requires AllRecordable(m)
    requires forall i :: 0 <= i < |lines| ==> NoLineBreak(lines[i])
    ensures AllRecordable(RawOverlay(m, lines))
    decreases |lines|
  {
    if lines != [] {
      var rest := lines[1..];
      assert forall i :: 0 <= i < |rest| ==> NoLineBreak(rest[i]) by {
        forall i | 0 <= i < |rest| ensures NoLineBreak(rest[i]) {
          assert rest[i] == lines[i + 1];
        }
      }
      match ParseRecord(lines[0])
      case None => RawOverlayRecordable(m, rest);
      case Some(rec) =>
        ParsedRecordIsRecordable(lines[0]);
        var next := m[rec.0 := rec.1];
        assert AllRecordable(next);
        RawOverlayRecordable(next, rest);
    }
  }

  /** Every record of any partition text is recordable. */
  lemma RecordsOfRecordable(text: string)
    ensures AllRecordable(RecordsOf(text))
  {
    RawOverlayRecordable(map[], Lines(text));
  }

  /** A line the loader gets through: no record, or a record whose timestamp float() accepts. */
  predicate LineLoads(line: string) {
    ParseRecord(line).None? || ParseTime(ParseRecord(line).value.1).Some?
  }

  /**
   * processed_files updated from the lines of a partition, one record at a time; the
   * first timestamp float() rejects raises and ends the load, keeping what was read.
   */
  function TimeOverlay(m: map<string, nat>, lines: seq<string>): (r: map<string, nat>)
    ensures m.Keys <= r.Keys
    decreases |lines|
  {
    if lines == [] then m
    else
      match ParseRecord(lines[0])
      case None => TimeOverlay(m, lines[1..])
      case Some(rec) =>
        match ParseTime(rec.1)
        case None => m
        case Some(t) => TimeOverlay(m[rec.0 := t], lines[1..])
  }

  /** Loading lines into a map with recordable paths keeps its paths recordable. */
  lemma {:induction false} TimeOverlayRecordable(m: map<string, nat>, lines: seq<string>)
    requires forall k :: k in m ==> RecordableKey(k)
    requires forall i :: 0 <= i < |lines| ==> NoLineBreak(lines[i])
    ensures forall k :: k in TimeOverlay(m, lines) ==> RecordableKey(k)
    decreases |lines|
  {
    if lines != [] {
      match ParseRecord(lines[0])
      case None => TimeOverlayRecordable(m, lines[1..]);
      case Some(rec) =>
        ParsedRecordIsRecordable(lines[0]);
        match ParseTime(rec.1)
        case None =>
        case Some(t) => TimeOverlayRecordable(m[rec.0 := t], lines[1..]);
    }
  }

  /**
   * A path already loaded keeps its timestamp through a load whose every record for
   * that path carries the same timestamp, even when the load stops early.
   */
  lemma {:induction false} TimeOverlayKeeps(m: map<string, nat>, lines: seq<string>, k: string)
    requires k in m
    requires forall i :: 0 <= i < |lines| ==>
      (ParseRecord(lines[i]).Some? && ParseRecord(lines[i]).value.0 == k ==> ParseTime(ParseRecord(lines[i]).value.1) == Some(m[k]))
    ensures k in TimeOverlay(m, lines) && TimeOverlay(m, lines)[k] == m[k]
    decreases |lines|
  {
    if lines != [] {
      assert forall i :: 1 <= i < |lines| ==> lines[1..][i - 1] == lines[i];
      match ParseRecord(lines[0])
      case None => TimeOverlayKeeps(m, lines[1..], k);
      case Some(rec) =>
        match ParseTime(rec.1)
        case None =>
        case Some(t) => TimeOverlayKeeps(m[rec.0 := t], lines[1..], k);
    }
  }

  /** The record lines a writer emits for the given paths, in that order. */
  function RenderLines(keys: seq<string>, w: map<string, string>): (ls: seq<string>)
    requires forall i :: 0 <= i < |keys| ==> keys[i] in w
    ensures |ls| == |keys|
  {
    seq(|keys|, i requires 0 <= i < |keys| => RecordLine(keys[i], w[keys[i]]))
  }

  /** The text of a partition the writer rewrote with these records. */
  function RenderText(keys: seq<string>, w: map<string, string>): string
    requires forall i :: 0 <= i < |keys| ==> keys[i] in w
  {
    Unlines(RenderLines(keys, w))
  }

  /** The part of w the listed paths cover. */
  function Pick<V>(w: map<string, V>, keys: seq<string>): (r: map<string, V>)
    ensures forall k :: k in r <==> k in w && k in keys
  {
    map k | k in w && k in keys :: w[k]
  }

  lemma RecordLineHasNoBreak(k: string, v: string)
    requires Clean(k) && Clean(v)
    ensures NoLineBreak(RecordLine(k, v))
  {
  }

  /** Listing one more path in front picks that path's entry on top of the rest. */
  lemma PickCons<V>(w: map<string, V>, keys: seq<string>)
    requires keys != [] && keys[0] in w
    ensures Pick(w, keys) == Pick(w, keys[1..])[keys[0] := w[keys[0]]]
  {
    assert forall k :: k in keys <==> k == keys[0] || k in keys[1..];
  }

  lemma UpdateThenUnion<V>(m: map<string, V>, p: map<string, V>, k: string, v: V)
    ensures m[k := v] + p == m + p[k := v] || (k in p && p[k] != v)
  {
    if !(k in p && p[k] != v) {
      var a, b := m[k := v] + p, m + p[k := v];
      assert forall x :: x in a <==> x in b;
      assert forall x :: x in a ==> a[x] == b[x];
    }
  }

  /** Reading back a rewritten partition yields exactly the records written, overlaid on what was there before reading. */
  lemma {:induction false} RawOverlayRender(m: map<string, string>, keys: seq<string>, w: map<string, string>)
    requires forall i :: 0 <= i < |keys| ==> keys[i] in w
    requires AllRecordable(w)
    ensures RawOverlay(m, RenderLines(keys, w)) == m + Pick(w, keys)
    decreases |keys|
  {
    var ls := RenderLines(keys, w);
    if keys != [] {
      var k0 := keys[0];
      ParseRecordLine(k0, w[k0]);
      RenderLinesCons(keys, w);
      RawOverlayFirst(m, ls, k0, w[k0]);
      RawOverlayRender(m[k0 := w[k0]], keys[1..], w);
      PickCons(w, keys);
      UpdateThenUnion(m, Pick(w, keys[1..]), k0, w[k0]);
    }
  }

  /** What the writer wrote, the reader reads back: the records of a rewritten partition are the records written. */
  lemma ReadBackRecords(keys: seq<string>, w: map<string, string>)
    requires forall i :: 0 <= i < |keys| ==> keys[i] in w
    requires forall k :: k in w ==> k in keys
    requires AllRecordable(w)
    ensures RecordsOf(RenderText(keys, w)) == w
  {
    var ls := RenderLines(keys, w);
    forall i | 0 <= i < |ls| ensures NoLineBreak(ls[i]) {
      RecordLineHasNoBreak(keys[i], w[keys[i]]);
    }
    LinesUnlines(ls);
    RawOverlayRender(map[], keys, w);
  }

  /** A first line holding a record sets that path before the rest is read. */
  lemma RawOverlayFirst(m: map<string, string>, ls: seq<string>, k: string, v: string)
    requires ls != [] && ParseRecord(ls[0]) == Some((k, v))
    ensures RawOverlay(m, ls) == RawOverlay(m[k := v], ls[1..])
  {
  }

  /** A first line holding a record with a numeric timestamp sets that path before the rest is read. */
  lemma TimeOverlayFirst(m: map<string, nat>, ls: seq<string>, k: string, v: string, t: nat)
    requires ls != [] && ParseRecord(ls[0]) == Some((k, v)) && ParseTime(v) == Some(t)
    ensures TimeOverlay(m, ls) == TimeOverlay(m[k := t], ls[1..])
  {
  }

  /** A first line without a record is passed over. */
  lemma TimeOverlaySkip(m: map<string, nat>, ls: seq<string>)
    requires ls != [] && ParseRecord(ls[0]).None?
    ensures TimeOverlay(m, ls) == TimeOverlay(m, ls[1..])
  {
  }

  /** A first line holding a record whose timestamp float() rejects ends the load there. */
  lemma TimeOverlayStop(m: map<string, nat>, ls: seq<string>, k: string, v: string)
    requires ls != [] && ParseRecord(ls[0]) == Some((k, v)) && ParseTime(v).None?
    ensures TimeOverlay(m, ls) == m && !LineLoads(ls[0])
  {
  }

  /** The lines written for a non-empty list of paths: the first path's record, then the rest's. */
  lemma RenderLinesCons(keys: seq<string>, w: map<string, string>)
    requires keys != [] && forall i :: 0 <= i < |keys| ==> keys[i] in w
    ensures RenderLines(keys, w)[0] == RecordLine(keys[0], w[keys[0]])
    ensures RenderLines(keys, w)[1..] == RenderLines(keys[1..], w)
  {
  }

  /**
   * Loading a rewritten partition whose timestamps were all written from a map of
   * times sets every listed path to its time, on top of what was loaded before.
   */
  lemma {:induction false} TimeOverlayRender(m: map<string, nat>, keys: seq<string>, w: map<string, string>, times: map<string, nat>)
    requires forall i :: 0 <= i < |keys| ==> keys[i] in w
    requires forall k :: k in w ==> RecordableKey(k) && k in times && w[k] == ShowTime(times[k])
    ensures TimeOverlay(m, RenderLines(keys, w)) == m + Pick(times, keys)
    decreases |keys|
  {
    var ls := RenderLines(keys, w);
    if keys != [] {
      var k0 := keys[0];
      ParseShowTime(times[k0]);
      ParseRecordLine(k0, w[k0]);
      RenderLinesCons(keys, w);
      TimeOverlayFirst(m, ls, k0, w[k0], times[k0]);
      TimeOverlayRender(m[k0 := times[k0]], keys[1..], w, times);
      PickCons(times, keys);
      UpdateThenUnion(m, Pick(times, keys[1..]), k0, times[k0]);
    }
  }
}
