/** What lies outside and may fail at any time: the blobstore, archives, the agent and the
    script that compile. */
module Services {
  import opened Packages

  /** What can be asked for. */
  datatype Request =
    | ExtractArchive(directory: string, name: string)
    | AddBlob(archiveOf: Package)
    | CompileOnVM(source: PackageRef, dependencies: seq<PackageRef>)
    | Install(ref: PackageRef)
    | PrepareInstallation(p: Package)
    | RunPackagingScript(p: Package)
    | Compress(installed: Package)
    | CreateBlob(tarball: string)

  datatype Answer =
    | Failed
    | Performed
    | Text(text: string)                   // the ID of a blob, the path of a tarball
    | Blob(record: CompiledPackageRecord)

  datatype Exchange = Exchange(request: Request, answer: Answer)

  /** An answer other than a failure is of the kind that the request asks for. */
  predicate Answers(answer: Answer, request: Request) {
    match request
    case AddBlob(_) => answer.Text?
    case Compress(_) => answer.Text?
    case CompileOnVM(_, _) => answer.Blob?
    case CreateBlob(_) => answer.Blob?
    case _ => answer.Performed?
  }

  class Service {
    /** How many requests have failed. */
    var failures: nat
    /** Every request so far with its answer, oldest first. */
    ghost var log: seq<Exchange>

    constructor ()
      ensures failures == 0 && log == []
    {
      failures := 0;
      log := [];
    }

    method Ask(request: Request) returns (answer: Answer)
      modifies this
      ensures answer.Failed? || Answers(answer, request)
      ensures log == old(log) + [Exchange(request, answer)]
      ensures failures == old(failures) + if answer.Failed? then 1 else 0
    {
      answer := *;
      if !Answers(answer, request) {
        answer := Failed;
        failures := failures + 1;
      }
      log := log + [Exchange(request, answer)];
    }
  }

  /** What was asked for in between. */
  ghost function Since(before: seq<Exchange>, now: seq<Exchange>): seq<Exchange>
    requires before <= now
  {
    now[|before|..]
  }

  lemma NothingSince(log: seq<Exchange>)
    ensures Since(log, log) == []
  {}

  lemma SinceThen(before: seq<Exchange>, middle: seq<Exchange>, now: seq<Exchange>)
    requires before <= middle <= now
    ensures Since(before, now) == Since(before, middle) + Since(middle, now)
  {}
}
