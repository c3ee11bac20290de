/**
 * What a scan learns from the outside world about each file os.walk hands it:
 * the local date of its modification time, the two size readings of the
 * stability check, and how each step of a conversion attempt would fare.
 */
module World {
  import opened Calendar

  /** The exception classes the watcher tells apart. */
  datatype IoError = NotFound | PermissionDenied | Unidentified | OtherError

  /** Image.open: the image's native mode, or the error it raised. */
  datatype OpenResult = Opened(native: string) | OpenFailed(error: IoError)

  /** The two os.path.getsize readings one second apart, or the error either raised. */
  datatype SizeProbe = Sizes(initial: nat, current: nat) | ProbeFailed(error: IoError)

  /** is_file_stable / is_stable: both sizes read, equal, and not zero; any error means not stable. */
  predicate IsStable(p: SizeProbe) {
    p.Sizes? && p.initial == p.current && p.current > 0
  }

  /**
   * How a conversion attempt would go: the open, os.makedirs of the output folder,
   * the paths os.remove cannot delete (locked by another program), the JPEG
   * encoder writing the temp file, and os.rename.
   */
  datatype Attempt = Attempt(open: OpenResult, dirsOk: bool, stuck: set<string>, encodeOk: bool, renameOk: bool)

  /** An attempt in which no step fails. */
  predicate IsClean(a: Attempt) {
    a.open.Opened? && a.dirsOk && a.stuck == {} && a.encodeOk && a.renameOk
  }

  /**
   * One file os.walk found: its path components below the watched folder, the local
   * date of its modification time, its stability probe, the attempt to convert it,
   * and whether the ledger write after it succeeds.
   */
  datatype Observation = Observation(parts: seq<string>, modDate: Date, probe: SizeProbe, attempt: Attempt, ledgerWriteOk: bool)
}
