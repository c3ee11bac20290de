/**
 * The "processed files" ledger of the timestamp generations: an in-memory map from
 * source path to the modification time it was last converted at, loaded from and
 * saved to one partition file. Saving merges: it reads the partition, overlays the
 * in-memory entries whose source still exists, and rewrites the whole file.
 */
module Ledger {
  import opened Base
  import opened Text
  import opened LedgerFile
  import opened Storage
  import opened Rules

  /** The records save's first loop reads from the partition; a missing or unreadable partition gives none. */
  function ExistingRecords(files: map<string, Node>, path: string): (r: map<string, string>)
    ensures AllRecordable(r)
  {
    if path in files && files[path].Text? then
      RecordsOfRecordable(files[path].text);
      RecordsOf(files[path].text)
    else map[]
  }

  /**
   * What save writes, corrected: every record already on disk survives unless memory
   * holds the same path; an in-memory entry whose source still exists is written with
   * the timestamp memory holds for it; an entry whose source vanished is not written
   * from memory.
   */
  function SavedRecords(existing: map<string, string>, entries: map<string, nat>, files: map<string, Node>): (w: map<string, string>)
    ensures forall k :: k in w <==> k in existing || (k in entries && k in files)
    ensures forall k :: k in entries && k in files ==> w[k] == ShowTime(entries[k])
    ensures forall k :: k in existing && !(k in entries && k in files) ==> w[k] == existing[k]
  {
    existing + map k | k in entries && k in files :: ShowTime(entries[k])
  }

  /**
   * What save writes as the source has it: an in-memory entry whose source still
   * exists is written with the source's modification time as read at save time,
   * whatever timestamp memory holds for it.
   */
  function SavedRecordsAsWritten(existing: map<string, string>, entries: map<string, nat>, files: map<string, Node>): (w: map<string, string>)
    ensures forall k :: k in w <==> k in existing || (k in entries && k in files && files[k].Image?)
    ensures forall k :: k in entries && k in files && files[k].Image? ==> w[k] == ShowTime(files[k].mtime)
    ensures forall k :: k in existing && !(k in entries && k in files && files[k].Image?) ==> w[k] == existing[k]
  {
    existing + map k | k in entries && k in files && files[k].Image? :: ShowTime(files[k].mtime)
  }

  /** Every record the corrected save writes can be written and read back. */
  lemma SavedRecordsRecordable(existing: map<string, string>, entries: map<string, nat>, files: map<string, Node>)
    requires AllRecordable(existing)
    requires forall k :: k in entries ==> RecordableKey(k)
    ensures AllRecordable(SavedRecords(existing, entries, files))
  {
    forall k | k in entries && k in files {
      ParseShowTime(entries[k]);
    }
  }

  /**
   * Saving and then loading the partition back into memory, as the next scan does,
   * leaves every entry whose source exists at the timestamp memory held: a file that
   * was due before the save is still due after the reload.
   */
  lemma SaveKeepsDueness(existing: map<string, string>, entries: map<string, nat>, files: map<string, Node>,
                         keys: seq<string>, p: string, mtime: nat)
    requires AllRecordable(existing)
    requires forall k :: k in entries ==> RecordableKey(k)
    requires forall i :: 0 <= i < |keys| ==> keys[i] in SavedRecords(existing, entries, files)
    requires p in entries && p in files
    ensures var reloaded := TimeOverlay(entries, Lines(RenderText(keys, SavedRecords(existing, entries, files))));
      p in reloaded && reloaded[p] == entries[p] && (IsDue(reloaded, p, mtime) <==> IsDue(entries, p, mtime))
  {
    var w := SavedRecords(existing, entries, files);
    SavedRecordsRecordable(existing, entries, files);
    var ls := RenderLines(keys, w);
    forall i | 0 <= i < |ls| ensures NoLineBreak(ls[i]) {
      RecordLineHasNoBreak(keys[i], w[keys[i]]);
    }
    LinesUnlines(ls);
    forall i | 0 <= i < |ls|
      ensures ParseRecord(ls[i]).Some? && ParseRecord(ls[i]).value.0 == p ==> ParseTime(ParseRecord(ls[i]).value.1) == Some(entries[p])
    {
      ParseRecordLine(keys[i], w[keys[i]]);
      ParseShowTime(entries[p]);
    }
    TimeOverlayKeeps(entries, ls, p);
  }

  /** A partition rewritten with a single record reads back as that one record line. */
  lemma SingleRecordLines(k: string, v: string)
    requires Clean(k) && Clean(v)
    ensures Lines(RenderText([k], map[k := v])) == [RecordLine(k, v)]
  {
    var line := RecordLine(k, v);
    RecordLineHasNoBreak(k, v);
    assert RenderLines([k], map[k := v]) == [line];
    LinesUnlines([line]);
  }

  /** Reloading a partition rewritten with a single record sets that one path to the written time. */
  lemma ReloadSingle(entries: map<string, nat>, k: string, t: nat)
    requires RecordableKey(k)
    ensures TimeOverlay(entries, Lines(RenderText([k], map[k := ShowTime(t)]))) == entries[k := t]
  {
    var v := ShowTime(t);
    var line := RecordLine(k, v);
    ParseShowTime(t);
    ParseRecordLine(k, v);
    SingleRecordLines(k, v);
    TimeOverlayFirst(entries, [line], k, v, t);
    assert [line][1..] == [];
  }

  /**
   * The save as written loses a failed reconversion: "P" was converted at time 1 and
   * then modified (time 2), and its reconversion failed, so memory still says 1 and
   * the file is due; the save writes 2, and after the reload "P" is no longer due
   * although no JPEG of its time-2 content exists.
   */
  lemma SaveAsWrittenForgetsFailure()
    ensures var files := map["P" := Image(2)];
      var entries := map["P" := 1];
      var w := SavedRecordsAsWritten(map[], entries, files);
      var reloaded := TimeOverlay(entries, Lines(RenderText(["P"], w)));
      IsDue(entries, "P", 2) && !IsDue(reloaded, "P", 2)
  {
    var files := map["P" := Image(2)];
    var entries := map["P" := 1];
    assert SavedRecordsAsWritten(map[], entries, files) == map["P" := ShowTime(2)];
    assert RecordableKey("P");
    ReloadSingle(entries, "P", 2);
  }

  /** The map after load_processed_files_from_file: the partition's records overlaid on memory; a missing partition clears memory only where the generation resets. */
  function LoadedEntries(m: map<string, nat>, files: map<string, Node>, path: string, resetWhenMissing: bool): map<string, nat> {
    if path !in files then (if resetWhenMissing then map[] else m)
    else if !files[path].Text? then m
    else TimeOverlay(m, Lines(files[path].text))
  }

  /** The partition is missing, or a text whose every line the loader gets through. */
  predicate LoadCompletes(files: map<string, Node>, path: string) {
    path !in files || (files[path].Text? && forall i :: 0 <= i < |Lines(files[path].text)| ==> LineLoads(Lines(files[path].text)[i]))
  }

  /** Adding one more record line to a rewritten partition. */
  lemma RenderAppend(keys: seq<string>, k: string, w: map<string, string>)
    requires forall i :: 0 <= i < |keys| ==> keys[i] in w
    requires k in w
    ensures RenderText(keys + [k], w) == RenderText(keys, w) + RecordLine(k, w[k]) + "\n"
  {
    var ls := RenderLines(keys + [k], w);
    assert ls[..|ls| - 1] == RenderLines(keys, w);
  }

  /** Merging the live entries over the records read gives the records save_processed_files writes. */
  lemma MergedIsSaved(existing: map<string, string>, entries: map<string, nat>, files: map<string, Node>,
                      live: map<string, nat>, merged: map<string, string>)
    requires forall k :: k in live <==> k in entries && k in files
    requires forall k :: k in live ==> live[k] == entries[k]
    requires forall k :: k in merged <==> k in existing || k in live
    requires forall k :: k in merged ==> merged[k] == if k in live then ShowTime(live[k]) else existing[k]
    ensures merged == SavedRecords(existing, entries, files)
  {
    var w := SavedRecords(existing, entries, files);
    assert merged.Keys == w.Keys;
    forall k | k in merged ensures merged[k] == w[k] {
    }
  }

  /** The first loop of save: the records of the partition's lines, later lines winning. */
  method ReadRecords(lines: seq<string>) returns (existing: map<string, string>)
    ensures existing == RawOverlay(map[], lines)
  {
    existing := map[];
    var i := 0;
    while i < |lines|
      invariant 0 <= i <= |lines|
      invariant RawOverlay(existing, lines[i..]) == RawOverlay(map[], lines)
    {
      assert lines[i..][1..] == lines[i + 1..];
      match ParseRecord(lines[i]) {
        case None =>
        case Some(rec) => existing := existing[rec.0 := rec.1];
      }
      i := i + 1;
    }
    assert lines[i..] == [];
  }

  /** The in-memory entries whose source file still exists. */
  method LiveEntries(entries: map<string, nat>, files: map<string, Node>) returns (live: map<string, nat>)
    ensures forall k :: k in live <==> k in entries && k in files
    ensures forall k :: k in live ==> live[k] == entries[k]
  {
    live := map[];
    var todo := entries.Keys;
    while todo != {}
      invariant todo <= entries.Keys
      invariant forall k :: k in live <==> k in entries && k !in todo && k in files
      invariant forall k :: k in live ==> live[k] == entries[k]
      decreases todo
    {
      var k :| k in todo;
      if k in files {
        live := live[k := entries[k]];
      }
      todo := todo - {k};
    }
  }

  /** The records on disk with the live entries' timestamps written over them. */
  method MergeRecords(existing: map<string, string>, live: map<string, nat>) returns (merged: map<string, string>)
    ensures forall k :: k in merged <==> k in existing || k in live
    ensures forall k :: k in merged ==> merged[k] == if k in live then ShowTime(live[k]) else existing[k]
  {
    merged := existing;
    var rest := live.Keys;
    while rest != {}
      invariant rest <= live.Keys
      invariant forall k :: k in merged <==> k in existing || (k in live && k !in rest)
      invariant forall k :: k in merged ==> merged[k] == if k in live && k !in rest then ShowTime(live[k]) else existing[k]
      decreases rest
    {
      var k :| k in rest;
      merged := merged[k := ShowTime(live[k])];
      rest := rest - {k};
    }
  }

  /** The write loop of save: one record line per key, in some order covering every key exactly as rendered. */
  method RenderRecords(w: map<string, string>) returns (text: string, keys: seq<string>)
    ensures forall i :: 0 <= i < |keys| ==> keys[i] in w
    ensures forall k :: k in w ==> k in keys
    ensures text == RenderText(keys, w)
  {
    keys := [];
    text := [];
    var left := w.Keys;
    while left != {}
      invariant left <= w.Keys
      invariant forall i :: 0 <= i < |keys| ==> keys[i] in w
      invariant forall k :: k in w ==> k in keys || k in left
      invariant text == RenderText(keys, w)
      decreases left
    {
      var k :| k in left;
      RenderAppend(keys, k, w);
      text := text + RecordLine(k, w[k]) + "\n";
      keys := keys + [k];
      left := left - {k};
    }
  }

  /** processed_files together with the partition operations on it. */
  class Ledger {
    var entries: map<string, nat>

    constructor ()
      ensures entries == map[]
    {
      entries := map[];
    }

    /** The line loop of the load: stops at the first line whose timestamp does not parse. */
    method OverlayLines(lines: seq<string>) returns (ok: bool)
      modifies this
      ensures entries == TimeOverlay(old(entries), lines)
      ensures ok <==> forall i :: 0 <= i < |lines| ==> LineLoads(lines[i])
    {
      var i := 0;
      while i < |lines|
        invariant 0 <= i <= |lines|
        invariant TimeOverlay(entries, lines[i..]) == TimeOverlay(old(entries), lines)
        invariant forall j :: 0 <= j < i ==> LineLoads(lines[j])
      {
        var rest := lines[i..];
        assert rest[0] == lines[i] && rest[1..] == lines[i + 1..];
        var rec := ParseRecord(lines[i]);
        if rec.None? {
          TimeOverlaySkip(entries, rest);
        } else {
          var t := ParseTime(rec.value.1);
          if t.None? {
            TimeOverlayStop(entries, rest, rec.value.0, rec.value.1);
            return false;
          }
          TimeOverlayFirst(entries, rest, rec.value.0, rec.value.1, t.value);
          entries := entries[rec.value.0 := t.value];
        }
        i := i + 1;
      }
      assert lines[i..] == [];
      return true;
    }

    /**
     * load_processed_files_from_file: overlay the partition's records on memory, line by
     * line; ok is false when the partition could not be read or a timestamp stopped the load.
     */
    method Load(disk: Disk, path: string, resetWhenMissing: bool) returns (ok: bool)
      modifies this
      ensures entries == LoadedEntries(old(entries), disk.files, path, resetWhenMissing)
      ensures ok <==> LoadCompletes(disk.files, path)
    {
      if path !in disk.files {
        if resetWhenMissing {
          entries := map[];
        }
        return true;
      }
      if !disk.files[path].Text? {
        return false;
      }
      ok := OverlayLines(Lines(disk.files[path].text));
    }

    /**
     * save_processed_files_to_file, corrected: read the partition's records, overlay
     * the live in-memory entries with their recorded timestamps, and rewrite the whole
     * partition one record per line; a failed write leaves the disk as it was.
     */
    method Save(disk: Disk, path: string, writeOk: bool) returns (ghost order: seq<string>)
      modifies disk
      ensures var w := SavedRecords(ExistingRecords(old(disk.files), path), entries, old(disk.files));
        (forall i :: 0 <= i < |order| ==> order[i] in w) && (forall k :: k in w ==> k in order)
        && disk.files == if writeOk then old(disk.files)[path := Text(RenderText(order, w))] else old(disk.files)
    {
      var existing: map<string, string> := map[];
      if path in disk.files && disk.files[path].Text? {
        existing := ReadRecords(Lines(disk.files[path].text));
      }
      assert existing == ExistingRecords(disk.files, path);
      var live := LiveEntries(entries, disk.files);
      var merged := MergeRecords(existing, live);
      MergedIsSaved(existing, entries, disk.files, live, merged);
      var text, keys := RenderRecords(merged);
      if writeOk {
        disk.files := disk.files[path := Text(text)];
      }
      order := keys;
    }
  }
}
