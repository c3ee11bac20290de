/**
 * The processed-files ledger of the oldest generations: a set of source paths, one
 * per line of a text file, read back with each line stripped and rewritten whole
 * after every scan cycle.
 */
module PathLedger {
  import opened Text
  import opened Storage

  /** What load_processed_files reads from a partition text: every line, stripped. */
  function PathsOf(text: string): (r: set<string>)
    ensures forall p :: p in r ==> Stripped(p) && NoLineBreak(p)
  {
    var ls := Lines(text);
    set i | 0 <= i < |ls| :: Strip(ls[i])
  }

  /** The items of a list as a set. */
  function Items(order: seq<string>): set<string> {
    set i | 0 <= i < |order| :: order[i]
  }

  /** A path that survives being written on its own line and stripped on the way back. */
  predicate Listable(p: string) {
    Stripped(p) && NoLineBreak(p)
  }

  /** Reading back a rewritten partition gives the set that was written, when every path is listable. */
  lemma ReadBackPaths(order: seq<string>)
    requires forall i :: 0 <= i < |order| ==> Listable(order[i])
    ensures PathsOf(Unlines(order)) == Items(order)
  {
    LinesUnlines(order);
    assert Lines(Unlines(order)) == order;
    forall i | 0 <= i < |order| ensures Strip(order[i]) == order[i] {
    }
  }

  /** The processed set of v004 and v002. */
  class PathSet {
    var paths: set<string>

    constructor ()
      ensures paths == {}
    {
      paths := {};
    }

    /**
     * load_processed_files: a fresh set from the partition's stripped lines, empty when
     * the partition is missing; the read is outside any try block, so a partition that
     * cannot be read stops the program (ok false, nothing loaded).
     */
    method Load(disk: Disk, path: string) returns (ok: bool)
      modifies this
      ensures ok <==> path !in disk.files || disk.files[path].Text?
      ensures paths == if !ok then old(paths) else if path in disk.files then PathsOf(disk.files[path].text) else {}
    {
      if path !in disk.files {
        paths := {};
        return true;
      }
      if !disk.files[path].Text? {
        return false;
      }
      var ls := Lines(disk.files[path].text);
      var read: set<string> := {};
      var i := 0;
      while i < |ls|
        invariant 0 <= i <= |ls|
        invariant read == set j | 0 <= j < i :: Strip(ls[j])
      {
        read := read + {Strip(ls[i])};
        i := i + 1;
      }
      paths := read;
      return true;
    }

    /**
     * save_processed_files: rewrite the partition with one path per line, in some order
     * that lists each path of the set once; a write that fails stops the program (the
     * caller learns it from writeOk) and leaves the disk as it was.
     */
    method Save(disk: Disk, path: string, writeOk: bool) returns (ghost order: seq<string>)
      modifies disk
      ensures Items(order) == paths
      ensures disk.files == if writeOk then old(disk.files)[path := Text(Unlines(order))] else old(disk.files)
    {
      var text: string := [];
      var keys: seq<string> := [];
      var left := paths;
      while left != {}
        invariant left <= paths
        invariant Items(keys) + left == paths
        invariant text == Unlines(keys)
        decreases left
      {
        var p :| p in left;
        assert (keys + [p])[..|keys|] == keys;
        assert Items(keys + [p]) == Items(keys) + {p} by {
          assert forall i :: 0 <= i < |keys| ==> (keys + [p])[i] == keys[i];
          assert (keys + [p])[|keys|] == p;
        }
        text := text + p + "\n";
        keys := keys + [p];
        left := left - {p};
      }
      if writeOk {
        disk.files := disk.files[path := Text(text)];
      }
      order := keys;
    }
  }
}
