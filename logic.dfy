/**
 * The second entry point (`run` in `src/logic.rs`): the same checks and the
 * same sequential scheme, without a dry run and without pattern renaming; its
 * required `match_rename` option is read but never used.
 */
module Logic {
  import opened Wrappers
  import opened Filesystem
  import opened Enumeration
  import opened Planning
  import opened Executor
  import Library

  datatype Arguments = Arguments(
    folder: string,
    verbose: bool,
    origin: nat,
    prefix: string,
    padding: nat,
    matchRegex: Option<Regex>,
    matchRename: string)

  /** The options of the library's `run` that behave like these: no template,
      no dry run. */
  function AsLibrary(args: Arguments): Library.Arguments
  {
    Library.Arguments(args.folder, args.verbose, args.origin, args.prefix, args.padding, args.matchRegex, None, false)
  }

  /** `run`: the folder checks, the enumeration, the sequential plan and a live
      batch. It never reports a missing pattern, and on success it does exactly
      what the library's `run` does with no template and no dry run. */
  method Run(fs: FileSystem, args: Arguments, env: Library.Environment)
    returns (r: Result<seq<Outcome>, Library.RunError>)
    modifies fs
    ensures r.Failure? <==> args.folder !in old(fs.nodes) || old(fs.nodes)[args.folder] != Directory
                            || env.listing.None?
    ensures r.Failure? ==> fs.nodes == old(fs.nodes) && r.error != Library.PatternMissing
    ensures args.folder !in old(fs.nodes) ==> r == Failure(Library.FolderMissing)
    ensures args.folder in old(fs.nodes) && old(fs.nodes)[args.folder] != Directory ==> r == Failure(Library.NotAFolder)
    ensures args.folder in old(fs.nodes) && old(fs.nodes)[args.folder] == Directory && env.listing.None?
            ==> r == Failure(Library.ListingFailed)
    ensures r.Success? ==>
              Execution(fs.nodes, r.value)
              == Executed(old(fs.nodes),
                          Library.Planned(old(fs.nodes), AsLibrary(args), Library.Enumerate(AsLibrary(args), env.listing.value)),
                          false, env.refuses)
  {
    var present := fs.Exists(args.folder);
    if !present {
      return Failure(Library.FolderMissing);
    }
    var isDir := fs.IsDir(args.folder);
    if !isDir {
      return Failure(Library.NotAFolder);
    }
    if env.listing.None? {
      return Failure(Library.ListingFailed);
    }
    var files := match args.matchRegex
      case Some(re) => FilterFilesRegex(args.folder, env.listing.value, re)
      case None => FilterFiles(args.folder, env.listing.value);
    var plans := PlanNumbered(fs, args.origin, files, Sequential(args.folder, args.prefix, args.padding));
    var report := Execute(fs, plans, false, env.refuses);
    return Success(report);
  }
}
