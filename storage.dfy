/**
 * The disk the watcher works on: a map from path to what the path holds. Source
 * PNGs carry their modification time; a JPEG remembers which source it was
 * encoded from, as of which modification time, and in which mode; ledger
 * partitions are text files.
 */
module Storage {
  import opened Rules

  datatype Node =
    | Image(mtime: nat)                                 // a source PNG and its modification time
    | Jpeg(source: string, stamp: nat, mode: JpegMode)  // a JPEG encoded from source as it was at stamp
    | Text(text: string)                                // a text file, such as a ledger partition

  /** The file system, updated in place by conversions and ledger writes. */
  class Disk {
    var files: map<string, Node>

    constructor (initial: map<string, Node>)
      ensures files == initial
    {
      files := initial;
    }
  }
}
