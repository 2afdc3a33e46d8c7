/**
 * The step itself: scan the ALTO files of a process for elements without ID and,
 * only if one is found, back up the OCR directory and rewrite every file.
 *
 * The file system and the host are outside the model. The result of listing the
 * ALTO folder and the result of the backup are parameters; each file arrives with
 * what parsing it yields and whether it can be written. What the step does to the
 * outside world is returned as a trace of events.
 */
module StepPlugin {
  import opened Wrappers
  import opened AltoXml
  import opened AltoDocument

  /** The exceptions the step catches; each carries the message written to the process journal. */
  datatype Exception =
    | SwapException(message: string)
    | IOException(message: string)
    | JDOMException(message: string)

  /** What parsing a file yields. */
  datatype Content = Xml(root: XmlNode) | NotWellFormed | Unreadable

  datatype AltoFile = AltoFile(path: string, content: Content, writable: bool)

  /** The actions of a run on the outside world, in the order they happen. */
  datatype Event =
    | Backup                              // a versioned copy of the OCR directory
    | Write(path: string, root: XmlNode)  // a file overwritten with this document
    | Journal(error: Exception)           // an error entry in the process journal

  datatype PluginReturnValue = Finish | Error

  function ReadAlto(f: AltoFile): Result<XmlNode, Exception>
  {
    match f.content
    case Xml(root) => Success(root)
    case NotWellFormed => Failure(JDOMException(f.path))
    case Unreadable => Failure(IOException(f.path))
  }

  /** The file parses and has no element without ID. */
  predicate Clean(f: AltoFile)
  {
    ReadAlto(f).Success? && !AltoFileHasMissingIds(ReadAlto(f).value)
  }

  // ---------------------------------------------------------------------------
  // The read-only scan

  /** The outcome of scanning the files in order, stopping at the first gap or error. */
  function MissingIdsScan(files: seq<AltoFile>): Result<bool, Exception>
    decreases |files|
  {
    if files == [] then Success(false)
    else
      match ReadAlto(files[0])
      case Failure(e) => Failure(e)
      case Success(root) => if AltoFileHasMissingIds(root) then Success(true) else MissingIdsScan(files[1..])
  }

  /**
   * The scan's outcome is decided by the first file that is not clean: false when
   * there is none (in particular for no files), true when that file parses and has
   * a gap, and that file's exception when it does not parse. Later files are not read.
   */
  lemma {:induction false} ScanDecidedByFirstUnclean(files: seq<AltoFile>, k: nat)
    requires k <= |files|
    requires forall j :: 0 <= j < k ==> Clean(files[j])
    ensures k == |files| ==> MissingIdsScan(files) == Success(false)
    ensures k < |files| && !Clean(files[k]) ==>
      MissingIdsScan(files) == if ReadAlto(files[k]).Failure? then Failure(ReadAlto(files[k]).error) else Success(true)
    decreases k
  {
    if k > 0 {
      assert Clean(files[0]);
      ScanDecidedByFirstUnclean(files[1..], k - 1);
    }
  }

  /** anyAltoFileHasMissingIds: a loop over the files with early return. */
  method AnyAltoFileHasMissingIds(files: seq<AltoFile>) returns (r: Result<bool, Exception>)
    ensures r == MissingIdsScan(files)
  {
    for i := 0 to |files|
      invariant MissingIdsScan(files) == MissingIdsScan(files[i..])
    {
      assert files[i..][1..] == files[i + 1..];
      match ReadAlto(files[i]) {
        case Failure(e) =>
          return Failure(e);
        case Success(root) =>
          if AltoFileHasMissingIds(root) {
            return Success(true);
          }
      }
    }
    return Success(false);
  }

  // ---------------------------------------------------------------------------
  // The rewrite pass

  /** Reading one file, filling in its IDs and saving it. */
  ghost function RewriteFile(f: AltoFile, pre: Prefixes): Result<Event, Exception>
  {
    match ReadAlto(f)
    case Failure(e) => Failure(e)
    case Success(root) =>
      if f.writable then Success(Write(f.path, FilledDocument(root, pre))) else Failure(IOException(f.path))
  }

  datatype Pass = Pass(writes: seq<Event>, failure: Option<Exception>)

  /** Rewriting the files in order; the first exception abandons the rest. */
  ghost function RewritePass(files: seq<AltoFile>, pre: Prefixes): Pass
    decreases |files|
  {
    if files == [] then Pass([], None)
    else
      match RewriteFile(files[0], pre)
      case Failure(e) => Pass([], Some(e))
      case Success(w) =>
        var rest := RewritePass(files[1..], pre);
        Pass([w] + rest.writes, rest.failure)
  }

  /**
   * The pass writes the files in order up to the first one that fails; those before
   * it stay rewritten and those after it are not touched. Without failure every file
   * is written.
   */
  lemma {:induction false} RewritePassMeaning(files: seq<AltoFile>, pre: Prefixes)
    ensures var p := RewritePass(files, pre);
      && |p.writes| <= |files|
      && (forall k :: 0 <= k < |p.writes| ==> RewriteFile(files[k], pre) == Success(p.writes[k]))
      && (forall k :: 0 <= k < |p.writes| ==> p.writes[k].Write? && p.writes[k].path == files[k].path)
      && (p.failure.None? ==> |p.writes| == |files|)
      && (p.failure.Some? ==> |p.writes| < |files| && RewriteFile(files[|p.writes|], pre) == Failure(p.failure.value))
    decreases |files|
  {
    if files != [] && RewriteFile(files[0], pre).Success? {
      RewritePassMeaning(files[1..], pre);
      var p := RewritePass(files, pre);
      forall k | 0 <= k < |p.writes| ensures RewriteFile(files[k], pre) == Success(p.writes[k]) {
        if k > 0 { assert files[k] == files[1..][k - 1]; }
      }
    }
  }

  method GenerateMissingAltoIdsInFile(f: AltoFile, pre: Prefixes) returns (r: Result<Event, Exception>)
    ensures r == RewriteFile(f, pre)
  {
    match ReadAlto(f) {
      case Failure(e) =>
        r := Failure(e);
      case Success(root) =>
        var updated := GenerateMissingIdsInDocument(root, pre);
        if f.writable {
          r := Success(Write(f.path, updated));
        } else {
          r := Failure(IOException(f.path));
        }
    }
  }

  method GenerateMissingAltoIds(files: seq<AltoFile>, pre: Prefixes) returns (writes: seq<Event>, failure: Option<Exception>)
    ensures Pass(writes, failure) == RewritePass(files, pre)
  {
    writes := [];
    for i := 0 to |files|
      invariant RewritePass(files, pre) ==
        Pass(writes + RewritePass(files[i..], pre).writes, RewritePass(files[i..], pre).failure)
    {
      assert files[i..][1..] == files[i + 1..];
      var r := GenerateMissingAltoIdsInFile(files[i], pre);
      match r {
        case Failure(e) =>
          return writes, Some(e);
        case Success(w) =>
          assert writes + [w] + RewritePass(files[i + 1..], pre).writes == writes + RewritePass(files[i..], pre).writes;
          writes := writes + [w];
      }
    }
    assert files[|files|..] == [];
    failure := None;
  }

  // ---------------------------------------------------------------------------
  // run and execute

  /** Some exception reaches the catch block of run. */
  ghost predicate RunFails(listing: Result<seq<AltoFile>, Exception>, backupFailure: Option<Exception>, pre: Prefixes)
  {
    || listing.Failure?
    || MissingIdsScan(listing.value).Failure?
    || (MissingIdsScan(listing.value) == Success(true) &&
        (backupFailure.Some? || RewritePass(listing.value, pre).failure.Some?))
  }

  /**
   * `listing` is the outcome of resolving and listing the ALTO folder, `backupFailure`
   * the exception the backup throws, if any.
   */
  method Run(listing: Result<seq<AltoFile>, Exception>, backupFailure: Option<Exception>, pre: Prefixes)
    returns (ret: PluginReturnValue, trace: seq<Event>)
    // the outcome
    ensures ret == Error <==> RunFails(listing, backupFailure, pre)
    ensures ret == Error <==> trace != [] && trace[|trace| - 1].Journal?
    // nothing missing: no backup and no write
    ensures listing.Success? && MissingIdsScan(listing.value) == Success(false) ==> ret == Finish && trace == []
    // a failed listing, scan or backup: only the journal entry
    ensures listing.Failure? ==> trace == [Journal(listing.error)]
    ensures listing.Success? && MissingIdsScan(listing.value).Failure? ==>
      trace == [Journal(MissingIdsScan(listing.value).error)]
    ensures listing.Success? && MissingIdsScan(listing.value) == Success(true) && backupFailure.Some? ==>
      trace == [Journal(backupFailure.value)]
    // a gap and a backup: the backup, then the rewrite pass
    ensures listing.Success? && MissingIdsScan(listing.value) == Success(true) && backupFailure.None? ==>
      var p := RewritePass(listing.value, pre);
      trace == [Backup] + p.writes + (if p.failure.Some? then [Journal(p.failure.value)] else [])
    // the backup comes before every write, and happens at most once
    ensures forall i :: 0 <= i < |trace| && trace[i].Write? ==> 0 < i && trace[0] == Backup
    ensures forall i :: 0 < i < |trace| ==> trace[i] != Backup
  {
    var successful := true;
    trace := [];
    var caught: Option<Exception> := None;
    match listing {
      case Failure(e) =>
        caught := Some(e);
      case Success(altoFiles) =>
        var scan := AnyAltoFileHasMissingIds(altoFiles);
        match scan {
          case Failure(e) =>
            caught := Some(e);
          case Success(missing) =>
            if missing {
              if backupFailure.Some? {
                caught := backupFailure;
              } else {
                trace := trace + [Backup];
                var writes, failure := GenerateMissingAltoIds(altoFiles, pre);
                RewritePassMeaning(altoFiles, pre);
                trace := trace + writes;
                caught := failure;
              }
            }
        }
    }
    if caught.Some? {
      trace := trace + [Journal(caught.value)];
      successful := false;
    }
    if !successful {
      ret := Error;
    } else {
      ret := Finish;
    }
  }

  /** execute reports success exactly when run does not return ERROR. */
  method Execute(listing: Result<seq<AltoFile>, Exception>, backupFailure: Option<Exception>, pre: Prefixes)
    returns (ok: bool, trace: seq<Event>)
    ensures ok <==> !RunFails(listing, backupFailure, pre)
  {
    var ret;
    ret, trace := Run(listing, backupFailure, pre);
    ok := ret != Error;
  }

  // ---------------------------------------------------------------------------
  // Running twice

  /** The files as a rewrite pass without failure leaves them. */
  ghost function Rewritten(files: seq<AltoFile>, pre: Prefixes): seq<AltoFile>
  {
    seq(|files|, k requires 0 <= k < |files| =>
      match ReadAlto(files[k])
      case Success(root) => files[k].(content := Xml(FilledDocument(root, pre)))
      case Failure(_) => files[k])
  }

  /**
   * After a rewrite pass without failure no file has a gap, so a second run finds
   * nothing: no backup, no write, FINISH.
   */
  lemma SecondRunFindsNothing(files: seq<AltoFile>, pre: Prefixes)
    requires RewritePass(files, pre).failure.None?
    ensures MissingIdsScan(Rewritten(files, pre)) == Success(false)
  {
    var fs := Rewritten(files, pre);
    RewritePassMeaning(files, pre);
    forall k | 0 <= k < |fs| ensures Clean(fs[k]) {
      assert RewriteFile(files[k], pre).Success?;
      FilledDocumentComplete(ReadAlto(files[k]).value, pre);
    }
    ScanDecidedByFirstUnclean(fs, |fs|);
  }
}
