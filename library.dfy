/**
 * The entry point of the library (`run` in `src/lib.rs`): check the folder,
 * enumerate its files, plan the renames with either the sequential or the
 * pattern scheme, and carry the plans out.
 */
module Library {
  import opened Wrappers
  import opened Paths
  import opened Filesystem
  import opened Enumeration
  import opened Planning
  import opened Executor

  /** The options of a run. `verbose` only selects which success lines are
      logged, so the report does not depend on it. */
  datatype Arguments = Arguments(
    folder: string,
    verbose: bool,
    origin: nat,
    prefix: string,
    padding: nat,
    matchRegex: Option<Regex>,
    matchRename: Option<string>,
    dryRun: bool)

  /** What the operating system answers: the listing of the folder (`None` when
      `read_dir` fails) and which renames it refuses. */
  datatype Environment = Environment(listing: Option<seq<ListedEntry>>, refuses: (string, string) -> bool)

  /** Why a run stops before renaming anything. `PatternMissing` stands for the
      panic of a pattern rename requested without a pattern. */
  datatype RunError = FolderMissing | NotAFolder | ListingFailed | PatternMissing

  /** The paths `run` enumerates: filtered by the `--match` pattern when there is one. */
  function Enumerate(args: Arguments, listing: seq<ListedEntry>): (files: seq<string>)
    ensures |files| <= |listing|
  {
    match args.matchRegex
    case Some(r) => FilterFilesRegex(args.folder, listing, r)
    case None => FilterFiles(args.folder, listing)
  }

  /** The plans `run` hands to the executor: the pattern scheme when a
      replacement template is given, the sequential scheme otherwise, each
      followed by the collision filter against the filesystem as it was. */
  function Planned(nodes: map<string, Kind>, args: Arguments, files: seq<string>): (plans: seq<RenamePlan>)
    requires args.matchRename.Some? ==> args.matchRegex.Some?
    ensures |plans| <= |files|
    ensures forall i :: 0 <= i < |plans| ==> plans[i].newPath !in nodes
  {
    if args.matchRename.Some? then
      KeepAbsent(MappedCandidates(files, Pattern(args.matchRegex.value, args.matchRename.value)), nodes)
    else
      KeepAbsent(NumberedCandidates(args.origin, files, Sequential(args.folder, args.prefix, args.padding)), nodes)
  }

  /** `run`: the checks in order, each failure leaving the filesystem as it was,
      then the whole batch. */
  method Run(fs: FileSystem, args: Arguments, env: Environment) returns (r: Result<seq<Outcome>, RunError>)
    modifies fs
    ensures r.Failure? <==> args.folder !in old(fs.nodes) || old(fs.nodes)[args.folder] != Directory
                            || env.listing.None? || (args.matchRename.Some? && args.matchRegex.None?)
    ensures r.Failure? ==> fs.nodes == old(fs.nodes)
    ensures args.folder !in old(fs.nodes) ==> r == Failure(FolderMissing)
    ensures args.folder in old(fs.nodes) && old(fs.nodes)[args.folder] != Directory ==> r == Failure(NotAFolder)
    ensures args.folder in old(fs.nodes) && old(fs.nodes)[args.folder] == Directory && env.listing.None?
            ==> r == Failure(ListingFailed)
    ensures args.folder in old(fs.nodes) && old(fs.nodes)[args.folder] == Directory && env.listing.Some?
            && args.matchRename.Some? && args.matchRegex.None?
            ==> r == Failure(PatternMissing)
    ensures r.Success? ==>
              Execution(fs.nodes, r.value)
              == Executed(old(fs.nodes), Planned(old(fs.nodes), args, Enumerate(args, env.listing.value)),
                          args.dryRun, env.refuses)
  {
    var present := fs.Exists(args.folder);
    if !present {
      return Failure(FolderMissing);
    }
    var isDir := fs.IsDir(args.folder);
    if !isDir {
      return Failure(NotAFolder);
    }
    if env.listing.None? {
      return Failure(ListingFailed);
    }
    var files := Enumerate(args, env.listing.value);
    var plans;
    if args.matchRename.Some? {
      if args.matchRegex.None? {
        return Failure(PatternMissing);
      }
      plans := PlanMapped(fs, files, Pattern(args.matchRegex.value, args.matchRename.value));
    } else {
      plans := PlanNumbered(fs, args.origin, files, Sequential(args.folder, args.prefix, args.padding));
    }
    var report := Execute(fs, plans, args.dryRun, env.refuses);
    return Success(report);
  }

  /** The listing describes the filesystem: readable entries have plain names,
      no two share a name, and every regular file listed is there. */
  ghost predicate ListingAgrees(nodes: map<string, Kind>, folder: string, listing: seq<ListedEntry>)
  {
    && (forall i :: 0 <= i < |listing| && listing[i].Entry? ==> IsEntryName(listing[i].name))
    && DistinctNames(listing)
    && (forall i :: 0 <= i < |listing| && IsFileEntry(listing[i]) ==> Join(folder, listing[i].name) in nodes)
  }

  /** A pattern that matches every name: `filter_files` is the enumeration
      with it. */
  function MatchAll(): (r: Regex)
    ensures forall name :: r.isMatch(name)
  {
    Regex((name: string) => true, (text: string, template: string) => text)
  }

  /** Enumerating a listing that agrees with the filesystem gives distinct paths
      that all exist. */
  lemma EnumeratedFilesExist(nodes: map<string, Kind>, args: Arguments, listing: seq<ListedEntry>)
    requires ListingAgrees(nodes, args.folder, listing)
    ensures forall i :: 0 <= i < |Enumerate(args, listing)| ==> Enumerate(args, listing)[i] in nodes
    ensures forall i, j :: 0 <= i < j < |Enumerate(args, listing)| ==>
              Enumerate(args, listing)[i] != Enumerate(args, listing)[j]
  {
    var regex := if args.matchRegex.Some? then args.matchRegex.value else MatchAll();
    if args.matchRegex.None? {
      FilterFilesIsMatchAll(args.folder, listing, regex);
    }
    var files := Enumerate(args, listing);
    assert files == FilterFilesRegex(args.folder, listing, regex);
    FilterFilesRegexDistinct(args.folder, listing, regex);
    forall i | 0 <= i < |files|
      ensures files[i] in nodes
    {
      FilterFilesRegexMembers(args.folder, listing, regex, files[i]);
    }
  }

  /** A live sequential run over a listing that agrees with the filesystem, with
      no rename refused, renames every file it planned: the destinations are
      pairwise distinct, so no plan is stopped by the second check because of an
      earlier rename in the same batch. The folder then holds the planned
      destinations in place of the planned sources. */
  lemma SequentialRunRenamesAll(nodes: map<string, Kind>, args: Arguments, listing: seq<ListedEntry>,
                                refuses: (string, string) -> bool)
    requires args.matchRename.None? && !args.dryRun
    requires ListingAgrees(nodes, args.folder, listing)
    requires forall src, dst :: !refuses(src, dst)
    ensures var plans := Planned(nodes, args, Enumerate(args, listing));
            && (forall i :: 0 <= i < |plans| ==> Executed(nodes, plans, false, refuses).report[i].Renamed?)
            && Executed(nodes, plans, false, refuses).nodes.Keys == (nodes.Keys - Sources(plans)) + Destinations(plans)
  {
    var files := Enumerate(args, listing);
    EnumeratedFilesExist(nodes, args, listing);
    var name := Sequential(args.folder, args.prefix, args.padding);
    var candidates := NumberedCandidates(args.origin, files, name);
    SequentialCounterInjective(args.folder, args.prefix, args.padding);
    forall i | 0 <= i < |candidates|
      ensures candidates[i].originalPath == files[i]
    {
      CandidateAt(args.origin, files, name, i);
    }
    forall i, j | 0 <= i < j < |candidates|
      ensures candidates[i].newPath != candidates[j].newPath
    {
      NumberedDestinationsDistinct(args.origin, files, name, i, j);
    }
    KeptPlansIndependent(candidates, nodes);
    IndependentBatchRenamesAll(nodes, Planned(nodes, args, files), refuses);
  }
}
