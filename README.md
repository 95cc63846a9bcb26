# rena — batch file renaming, modelled in Dafny

rena renames every regular file of one folder in a single batch. There are two
naming schemes:

- **Sequential.** `{folder}/{prefix}_{number:0>N}{ext}`. The counter starts at
  `origin` and goes up by one per file, in listing order. The number is padded
  on the left with zeros to `padding` digits and is never truncated. The
  extension of the original name is kept.
- **Pattern.** A regular expression is applied to the file name with a
  replacement template. When the replacement is a plain name, the file stays
  in its folder (`Planning.PatternDestinationInFolder`). A `/` inside the
  replacement moves the file into a subfolder, and an absolute replacement
  replaces the whole path.

An optional `--match` pattern restricts the batch to the matching names.

A run of the library's `run` (`src/lib.rs`) goes through four stages:

1. It checks that the folder exists and is a directory, and lists it.
2. It enumerates the readable regular files.
3. It maps each file to a `RenameFile` plan (`original_path`, `new_path`) and
   drops every plan whose destination already exists.
4. It carries out the plans. Each plan is checked again just before it is
   acted on. A dry run only reports, and a failed rename is logged while the
   other plans go on.

The `run` of `src/logic.rs` goes through the same stages with the sequential
scheme only and has no dry run.

The project follows that structure:

| module | file | models |
|---|---|---|
| `Paths` | `paths.dfy` | `Path::join`, `file_name`, `parent`, `set_file_name`, `extension` on literal path strings |
| `Numbering` | `numbering.dfy` | decimal rendering of the counter, left zero padding, the sequential file name |
| `Filesystem` | `filesystem.dfy` | the filesystem as a class over a map from path to entry kind: `exists`, `is_dir`, `fs::rename` |
| `Enumeration` | `enumeration.dfy` | `filter_files`, `filter_files_regex` |
| `Planning` | `planning.dfy` | `RenameFile` (`RenamePlan`), the mapping closures of both schemes, the collision filter |
| `Executor` | `executor.dfy` | the loop that carries out a batch, its report, and what it does to the filesystem |
| `Library` | `library.dfy` | `run` in `src/lib.rs` |
| `Logic` | `logic.dfy` | `run` in `src/logic.rs` |

The filesystem is a `FileSystem` object whose `nodes` map the methods update in
place. The planner and the executor are loops (`PlanNumbered`, `PlanMapped`,
`Execute`), and each is proved equal to a recursive specification function
(`KeepAbsent` of the candidates, `Executed`). The properties are lemmas about
those functions.

Points of the code's behaviour worth knowing:

- The counter is only padded on the left (`{number:0>N}`), and only regular
  files are renamed.
- Every enumerated file consumes a counter value, including a file whose plan
  the collision filter later drops. The numbers of the renamed files are
  therefore not always consecutive.
- The library's `run` unwraps the pattern when a replacement template is given
  (`src/lib.rs:221`). With a template but no pattern, that panics after the
  listing and before any rename. The model returns the error `PatternMissing`
  at that point, with the filesystem untouched.

## Model

| member | source | states |
|---|---|---|
| Library.Run | src/lib.rs:98-134 | fails exactly when the folder is missing, is not a directory, cannot be listed, or a template comes without a pattern; names the first failing check in that order (`FolderMissing`, `NotAFolder`, `ListingFailed`, `PatternMissing`); a failure renames nothing; a success does exactly the batch `Executed` describes for the planned renames of the enumerated files |
| Library.Enumerate | src/lib.rs:124-127 | the pattern-filtered enumeration when a pattern is given, the plain one otherwise; never more paths than listing items |
| Library.Planned | src/lib.rs:129-133 | the plans of the scheme the options select; no more plans than files, and no planned destination exists in the filesystem as it was |
| Library.EnumeratedFilesExist | src/lib.rs:124-127 | when the listing agrees with the filesystem, every enumerated path exists and no path is enumerated twice |
| Library.SequentialRunRenamesAll | src/lib.rs:136-216 | a live sequential run over a consistent listing, with no refused rename, renames every planned file; the folder then holds the destinations in place of the sources |
| Logic.Run | src/logic.rs:94-195 | the same failure conditions as the library's run, without `PatternMissing`, each named (`FolderMissing`, `NotAFolder`, `ListingFailed`); a failure renames nothing; a success does what the library's run does with no template and no dry run; its `filter_files` and `filter_files_regex` (`src/logic.rs:207-269`) are copies of the library's and are modelled by `FilterFiles` and `FilterFilesRegex`, and its loops by `PlanNumbered` and a live `Execute` |
| Enumeration.FilterFiles | src/lib.rs:291-325 | `filter_files`: never more paths than listing items; what it keeps and in which order are the lemmas below, through `FilterFilesIsMatchAll` |
| Enumeration.FilterFilesRegex | src/lib.rs:327-359 | `filter_files_regex`: never more paths than listing items; what it keeps and in which order are the lemmas below |
| Enumeration.FilterFilesRegexMembers | src/lib.rs:331-350 | a path is enumerated if and only if some readable regular-file entry with a matching name produced it |
| Enumeration.FilterFilesRegexAppend | src/lib.rs:352-358 | enumeration distributes over concatenation of listings, so listing order is kept |
| Enumeration.FilterFilesIsMatchAll | src/lib.rs:291-325 | `filter_files` equals `filter_files_regex` with a pattern that matches every name |
| Enumeration.FilterFilesRegexNames | src/lib.rs:352-358 | every enumerated path is the folder joined with a matching entry name, and its file name is that name |
| Enumeration.FilterFilesRegexDistinct | src/lib.rs:352-358 | entries with distinct names yield pairwise distinct paths |
| Paths.Join | src/lib.rs:356 | `DirEntry::path`: an absolute name replaces the path; under a plain folder the result is `folder/name`; it always ends with the name |
| Paths.FileName | src/lib.rs:228 | the last component: a separator-free suffix of the path, the whole path when it has no separator, and otherwise preceded by a separator |
| Paths.Parent | src/lib.rs:230-232 | everything before the last separator: empty when there is none, `/` when the only separator leads the path, and otherwise a prefix followed by the last separator |
| Paths.SetFileName | src/lib.rs:232 | `set_file_name`: the result ends with the new name, and an absolute new name replaces the whole path |
| Paths.Extension | src/lib.rs:153-156 | an extension exists exactly when the name is not `..` and has a dot after its first character; it contains no dot |
| Paths.FileNameOfJoin | src/lib.rs:228 | the file name of a joined entry path is the entry's name |
| Paths.ParentOfJoin | src/lib.rs:230-232 | the parent of a joined entry path is the folder |
| Paths.SetFileNameOfJoin | src/lib.rs:230-232 | replacing the file name of an entry path gives the folder joined with the new name |
| Numbering.Decimal | src/lib.rs:157 | `format!("{}", count)`: at least one digit, all digits, no leading zero |
| Numbering.DecimalRoundTrip | src/lib.rs:157 | reading the rendered counter back gives the counter |
| Numbering.PadLeft | src/lib.rs:138 | `0>N` alignment: length is the larger of N and the text's length, the text is kept as the suffix, the rest is zeros |
| Numbering.PaddedValue | src/lib.rs:138 | the padded counter is all digits and still reads as the counter |
| Numbering.SequentialName | src/lib.rs:138 | `{prefix}_{number:0>N}{ext}`: starts with the prefix and the underscore, ends with `{ext}`, and is never shorter than those plus `N` digits |
| Numbering.SequentialNameInjective | src/lib.rs:138-163 | two sequential names that are equal carry the same counter, whatever their extensions |
| Numbering.ScenarioSimple | src/test.rs:28-53 | prefix `item`, padding 10, counter 0 or 3 and `.jpg` give `item_0000000000.jpg` and `item_0000000003.jpg`; a counter wider than the padding is not truncated |
| Filesystem.RenameEffect | src/lib.rs:195 | `fs::rename`: fails if the source is missing or the system refuses; otherwise the source key is gone, the destination holds the source's entry, every other path is unchanged |
| Filesystem.RenameKeepsCount | src/lib.rs:195 | a rename onto a free path keeps the number of entries |
| Filesystem.FileSystem.Exists | src/lib.rs:167 | true exactly for paths present in the filesystem |
| Filesystem.FileSystem.IsDir | src/lib.rs:106 | true exactly for present directories |
| Filesystem.FileSystem.Rename | src/lib.rs:195 | the new filesystem and the result are those of `RenameEffect`; a failure leaves the filesystem unchanged |
| Planning.ExtSuffix | src/lib.rs:153-156 | the `{ext}` field is empty or starts with a dot |
| Planning.ExtSuffixOfEntry | src/lib.rs:153-156 | for an entry path, `{ext}` is a dot and the entry name's extension, or empty when the name has none |
| Planning.SequentialDestinationShape | src/lib.rs:138-163 | the destination is `folder/prefix_` + digits + `{ext}`, where the digits read as the counter and are as wide as the padding or the counter, whichever is wider |
| Planning.ExtensionPreserved | src/lib.rs:153-163 | when the original name has an extension, the destination's file name has the same extension, whatever the prefix holds (a separator included) |
| Planning.ExtensionStaysAbsent | src/lib.rs:138-163 | when the original name has no extension and the prefix has no dot after its first character, the destination's file name has none either |
| Planning.DottedPrefixGainsExtension | src/lib.rs:138-163 | with prefix `a.b`, the name `README`, which has no extension, becomes `a.b_0`, whose extension is `b_0` |
| Planning.SequentialDestination | src/lib.rs:138-163 | `strfmt` of the format: the destination starts with `{folder}/` and is at least as long as folder, separator, prefix, underscore and `padding` digits together |
| Planning.PatternDestination | src/lib.rs:228-232 | the destination ends with the replaced file name |
| Planning.SequentialDestinationsDiffer | src/lib.rs:157-163 | different counter values give different destinations |
| Planning.SequentialCounterInjective | src/lib.rs:157-159 | the sequential naming function never maps two counter values to the same path |
| Planning.NumberedCandidates | src/lib.rs:150-165 | one candidate per enumerated file |
| Planning.CandidateAt | src/lib.rs:157-159 | the i-th file becomes the plan from that file to the name of counter `origin + i` |
| Planning.CandidatesSnoc | src/lib.rs:150-165 | appending a file appends its plan, numbered by its position |
| Planning.NumberedDestinationsDistinct | src/lib.rs:150-165 | with a counter-injective naming function, no two candidates share a destination |
| Planning.MappedCandidates | src/lib.rs:225-238 | one candidate per enumerated file |
| Planning.MappedCandidateAt | src/lib.rs:227-237 | the i-th file becomes the plan from that file to its pattern-derived name |
| Planning.MappedCandidatesSnoc | src/lib.rs:225-238 | appending a file appends its plan |
| Planning.PatternDestinationInFolder | src/lib.rs:228-232 | the pattern destination of an entry is the folder joined with the replaced name, so it stays in the same folder when the replacement is a plain name |
| Planning.KeepAbsent | src/lib.rs:166-176 | no more plans than before, and no kept destination exists |
| Planning.KeepAbsentMembers | src/lib.rs:166-176 | a plan is kept if and only if it was a candidate and its destination does not exist |
| Planning.KeepAbsentAppend | src/lib.rs:166-177 | the filter distributes over concatenation, so order is kept |
| Planning.KeepAbsentAllFree | src/lib.rs:166-176 | when no destination exists, every plan is kept |
| Planning.SelfNamedFileSkipped | src/lib.rs:166-176 | a file whose numbered destination (under any naming function, the sequential one included) is its own path is dropped |
| Planning.PlanNumbered | src/lib.rs:136-177 | the counting loop yields the filtered sequential candidates, with the counter starting at `origin` |
| Planning.PlanMapped | src/lib.rs:218-250 | the mapping loop yields the filtered pattern candidates |
| Executor.Step | src/lib.rs:180-213 | a plan collides exactly when its destination exists; otherwise it is a dry run exactly in a dry run, and in a live run it is renamed when `RenameEffect` succeeds and failed, with its error, when it fails; only a rename changes the filesystem, and as `RenameEffect` says |
| Executor.Executed | src/lib.rs:180-213 | one outcome per plan |
| Executor.ExecutedAt | src/lib.rs:180-213 | the i-th outcome is the step on the filesystem the earlier plans left, and the filesystem after it is what that step leaves |
| Executor.ReportFollowsPlans | src/lib.rs:180-213 | the i-th outcome is about the i-th plan, so every plan gets its turn after a failure too |
| Executor.NeverRenamesOntoExisting | src/lib.rs:181-195 | a rename happens only when the destination is free and the source present at that moment, and it moves exactly that entry |
| Executor.OnlyRenamesChangeState | src/lib.rs:181-211 | a collision, a dry run or a failed rename leaves the filesystem unchanged; a collision happens exactly when the destination exists at that moment |
| Executor.LiveRunReportsFailures | src/lib.rs:194-211 | a live run reports no plan as a dry run, and reports a plan as failed exactly when its destination was free and the rename failed |
| Executor.DryRunChangesNothing | src/lib.rs:188-193 | a dry run leaves the filesystem as it was, and every outcome is a dry run or a collision |
| Executor.ExecutionKeepsEntryCount | src/lib.rs:181-195 | executed one plan after another, a batch never changes the number of entries, so no file is overwritten |
| Executor.SharedDestinationCollides | src/lib.rs:166-195 | two plans with the same free destination both pass the planning-time check; in order, the first is renamed and the second collides |
| Executor.KeptPlansIndependent | src/lib.rs:166-176 | after the filter, plans with present distinct sources and distinct destinations form an independent batch: sources present and distinct, destinations free and distinct |
| Executor.IndependentBatchRenamesAll | src/lib.rs:180-213 | a live independent batch with no refusals renames every plan; the result is the old paths minus the sources plus the destinations |
| Executor.Execute | src/lib.rs:180-213 | the loop's report and final filesystem are those of `Executed` |

## Left out

- Command-line parsing (`From<ArgMatches>`, `src/main.rs`, `src/util.rs`) is not modelled. Arguments arrive already parsed, and an invalid regex is rejected before `run`.
- Regular-expression matching and replacement with capture groups are given as the two functions of `Regex` and are not interpreted.
- The parallel executor (`par_iter`, `src/lib.rs:180` and `src/lib.rs:253`) is run one plan after another. The race between the second existence check (`src/lib.rs:181`, `src/lib.rs:254`) and the rename (`src/lib.rs:195`, `src/lib.rs:268`) is not modelled. Neither is interleaving between plans.
- Executor.NeverRenamesOntoExisting and Executor.ExecutionKeepsEntryCount hold for the program only when the destinations of a batch are pairwise distinct. With a shared destination, two parallel closures can both pass the existence check before either renames, and the second `fs::rename` then overwrites the first file. The pattern scheme produces shared destinations, e.g. a template without capture groups (`Executor.SharedDestinationCollides` shows both plans kept). The sequential scheme always yields distinct destinations (`Planning.NumberedDestinationsDistinct`, `Planning.SequentialCounterInjective`), so there the guarantees carry over.
- Log text and `verbose` are not modelled. The report holds one outcome per plan: the log line the executor writes for it, or, for a successful rename, the line written only with `verbose` (`src/lib.rs:196-204`). The warning written for a candidate dropped at planning time (`src/lib.rs:168-171`, `src/lib.rs:240-244`, `src/logic.rs:156-159`) is not in the report. The dropped candidates are only characterised by `Planning.KeepAbsentMembers`.
- `rename_normal` and `rename_regex` in `src/logic.rs:197-205` only panic and are never called, so they are not modelled.
- The directory listing is an input: its order, its unreadable entries and a failing `read_dir`. So is the set of renames the system refuses (permissions, devices, and so on). The listing is not derived from the filesystem map. `Library.ListingAgrees` states the agreement where a lemma needs it.
- Paths are compared as literal strings. `a//b` and `a/b` are different keys, and `.` or `..` components are not resolved. For a folder written with a trailing separator, as in `rena images/` (`src/test.rs:26`), destinations have the form `images//item_…` (`src/lib.rs:138`). The model's guard then misses an existing `images/item_…` and renames where the program skips. The lemmas assume a folder without a trailing separator (`IsPlainFolder`) wherever the shape of the path matters.
- Symbolic links are not resolved. Rust's `exists` and `is_dir` follow links, and `exists` is false for a dangling link. In the model a symlink entry is present but is never a directory. This has two consequences:
  - A folder given as a symlink to a directory is accepted by the program (`src/lib.rs:106`) but gets `NotAFolder` in the model.
  - A dangling symlink at a destination passes the program's guards (`src/lib.rs:167`, `src/lib.rs:181`) and is replaced by `fs::rename` (`src/lib.rs:195`). The model reports it as a `Collision`. So `Executor.ExecutionKeepsEntryCount`'s "no file is overwritten" does not carry over to dangling links.
- Lossy UTF-8 conversion is not modelled: names are character sequences.
- The counter is unbounded. The overflow of `usize` past its maximum is not modelled.
- `file_name()` returning `None` is not modelled. It cannot happen for the paths a listing produces.
- Library.SequentialRunRenamesAll: proved only for the sequential scheme. The pattern scheme can map two files to one name. The model's one-plan-after-another executor then reports the later plan as a collision, while the program may rename both and overwrite the first (see above).
