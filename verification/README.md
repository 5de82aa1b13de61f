# Dataform CLI sync core, in Dafny

This project models the synchronisation core of a small command-line tool
that mirrors a Google Cloud Dataform workspace to and from a local
directory, together with the SQL helper functions of the Dataform project
it ships with.

- **Ignore rules** (`Gitignore`, on top of `Text` and `Glob`): a
  `.gitignore` file is read line by line. Blank lines and `#` comments are
  dropped and every other line is stripped of whitespace. A path is ignored
  when some pattern hits it. A pattern ending in `/` is a raw string-prefix
  test on the pattern without its slashes. Any pattern is also tried as an
  `fnmatch` shell glob on the whole path, where `*` crosses `/`.
- **Workspace listing** (`Workspace`): the remote tree is a value. Each
  directory's listing is either its entries or `Unavailable`, which stands
  for a listing call that raises. The listing splits a directory's entries
  into kept files and kept directories, dropping whatever the ignore rules
  match. A worklist then expands the kept directories until none is left.
  The result is the sorted list of kept file paths, or `None` when a
  listing raises.
- **Local files** (`LocalFiles`): the directory walk is a value, a sequence
  of (directory, file names) steps. Every walked path is joined onto its
  directory. Then every occurrence of `<source_dir>/` is deleted from it,
  and the result is sorted.
- **push** (`Push`): the remote calls are a trace of operations (`Op`). A
  set of failing operations stands for the calls that raise, and the first
  raise ends the run. A run has two phases, unless an uncaught error in the
  guarded first listing stops it before either:
  - the first phase uploads every local file, then removes the remote files
    missing locally when asked;
  - the second phase removes the truly empty directories, then commits and
    pushes when asked.
- **pull** (`Pull`): file reads are a parameter (`string -> Fetch`). Saving
  a file is recorded as an event. The workspace `.gitignore` is fetched
  first, saved, and used to filter the listing. Then every listed file is
  fetched, and a failed fetch is logged and skipped.
- **SQL helpers** (`Udfs`):
  - `getFQN` looks up a fully qualified table name in a configuration
    object;
  - `getColumnNullableId` builds a `CASE` expression for a nullable id;
  - `getColumnAppName` builds a `CASE` expression labelling rows by game.

  SQL's evaluation of a searched `CASE` is modelled (`Evaluate`), so that
  what the generated expression computes can be stated.

Every operation has a partner:
- the loop-based methods are proved equal to recursive reference
  definitions;
- the sorted listing is proved to be a permutation of the recursive walk;
- the ignore-file parser is proved to round-trip a written pattern list;
- the quoted game list is proved to parse back to the games;
- the push and pull traces are characterised by lemmas relating them to
  their inputs.

Points where the code behaves other than one might expect, and where the
model follows the code:
- **push stops at the first raise.** No loop in `push` catches an error,
  so a remote call that raises during uploads, deletions, directory
  removals, commit or push ends the whole run.
- **Only the first listing is guarded, and only against API call
  errors.** Just the first remote listing in `push` has a `try`, and its
  `except` clause catches `GoogleAPICallError` only. When the listing
  raises such an error, the run carries on with no remote files. Any other
  error in that block ends `push` before its first upload. Examples are a
  `RetryError`, an authentication error, or an error reading the working
  directory's `.gitignore` while the ignore handler is built. In the model
  this is the `uncaught` flag of the remote's answers. The later directory
  listing and file listing are unguarded and end the run when they raise.
- **A prefix pattern matches on characters, not path components.** `build/`
  ignores `buildup/file` and `build` as well as `build/main.o`.
- **The walk order is not the source's.** The remote listing loop mutates
  the list it iterates over, so it visits directories in a different order
  from the reference walk. Only the sorted result is stated, and it is equal
  to the reference.
- **The two commands take their ignore rules from different places.**
  `push` filters remote files with the `.gitignore` of the current working
  directory, not the source directory. `pull` filters with the copy it has
  just saved into the target directory. The local file list is never
  filtered.

## Model

| member | source | states |
|---|---|---|
| Text.TrimStart | src/surquest/GCP/dataform_cli/handlers/gitignore_handler.py:42-47 | leading-whitespace removal keeps a suffix of the line whose first character is not whitespace, and every removed character is whitespace |
| Text.TrimEnd | src/surquest/GCP/dataform_cli/handlers/gitignore_handler.py:42-47 | trailing-whitespace removal keeps a prefix whose last character is not whitespace, and every removed character is whitespace |
| Text.TrimmedIsFixed | src/surquest/GCP/dataform_cli/handlers/gitignore_handler.py:42-47 | a line that neither starts nor ends with whitespace is left unchanged by stripping |
| Text.StripIdempotent | src/surquest/GCP/dataform_cli/handlers/gitignore_handler.py:42-47 | stripping a stripped line changes nothing, so a stored pattern is already in normal form |
| Text.RemoveAllAbsent | src/surquest/GCP/dataform_cli/handlers/push_handler.py:33-35 | `str.replace` of a text that does not occur leaves the path unchanged |
| Text.RemoveAllLeading | src/surquest/GCP/dataform_cli/handlers/push_handler.py:33-35 | when the replaced text leads the path and does not occur in the rest, replacing it leaves exactly the rest |
| Text.RemoveAllFirstOccurrence | src/surquest/GCP/dataform_cli/handlers/push_handler.py:33-35 | `str.replace` removes every occurrence: when no occurrence starts before a given one, the text before it is kept, that occurrence is dropped, and replacement continues on the rest |
| Text.PathJoin | src/surquest/GCP/dataform_cli/push.py:59-60 | `os.path.join` gives an absolute second part unchanged, otherwise a path that starts with the first part and ends with the second, with exactly one `/` inserted when the first part is non-empty and lacks a trailing one, and the two parts simply concatenated when the first part is empty or already ends in `/` |
| Text.LinesOfJoinLines | src/surquest/GCP/dataform_cli/handlers/gitignore_handler.py:42-47 | splitting a text written as lines joined by line breaks gives back exactly those lines |
| Text.Sort | src/surquest/GCP/dataform_cli/handlers/pull_handler.py:82 | `sorted` returns an ordered permutation of its input |
| Text.SortedUnique | src/surquest/GCP/dataform_cli/handlers/pull_handler.py:82 | two ordered lists holding the same paths with the same multiplicities are equal, so the sorted listing does not depend on traversal order |
| Text.SortOfSorted | src/surquest/GCP/dataform_cli/handlers/push_handler.py:37 | sorting a list that is already sorted leaves it unchanged |
| Glob.MatchTokensDenotes | src/surquest/GCP/dataform_cli/handlers/gitignore_handler.py:63-64 | the backtracking matcher for a compiled `fnmatch` pattern accepts a path exactly when the path is in the pattern's declarative language (tokens matching consecutive pieces) |
| Glob.LiteralPattern | src/surquest/GCP/dataform_cli/handlers/gitignore_handler.py:63-64 | a pattern with no `*`, `?` or `[` matches exactly the identical path |
| Glob.StarThenLiteral | src/surquest/GCP/dataform_cli/handlers/gitignore_handler.py:63-64 | `*` followed by literal text matches exactly the paths ending in that text, whatever directories precede it |
| Glob.SingleToken | src/surquest/GCP/dataform_cli/handlers/gitignore_handler.py:63-64 | a pattern of one `?`, literal or class token matches exactly the one-character paths that token accepts |
| Glob.QuestionMarkMatchesOne | src/surquest/GCP/dataform_cli/handlers/gitignore_handler.py:63-64 | `?` matches exactly the one-character paths, `/` included |
| Glob.BracketClass | src/surquest/GCP/dataform_cli/handlers/gitignore_handler.py:63-64 | a closed class `[t]` matches exactly the one-character paths whose character is listed in `t` or lies in one of its ranges |
| Glob.NegatedBracketClass | src/surquest/GCP/dataform_cli/handlers/gitignore_handler.py:63-64 | a closed class `[!t]` matches exactly the one-character paths whose character is not a member of `t` |
| Glob.RangeClass | src/surquest/GCP/dataform_cli/handlers/gitignore_handler.py:63-64 | `[lo-hi]` matches exactly the one-character paths between `lo` and `hi` inclusive, so an inverted range matches nothing |
| Glob.UnclosedBracketIsLiteral | src/surquest/GCP/dataform_cli/handlers/gitignore_handler.py:63-64 | a `[` with no closing `]` after it matches a literal `[`, and the rest of the pattern is matched on |
| Glob.ExactTokens | src/surquest/GCP/dataform_cli/handlers/gitignore_handler.py:63-64 | a pattern read as literal characters matches exactly the text it spells |
| Glob.EmptyClassIsLiteral | src/surquest/GCP/dataform_cli/handlers/gitignore_handler.py:63-64 | `[]` and `[!]` are never closed, because a `]` right after `[` or `[!` belongs to the class, so each matches only its own text |
| Glob.StarMatchesEverything | src/surquest/GCP/dataform_cli/handlers/gitignore_handler.py:63-64 | the pattern `*` matches every path, including the empty one and ones containing `/` |
| Gitignore.LoadPatterns | src/surquest/GCP/dataform_cli/handlers/gitignore_handler.py:32-47 | a missing ignore file gives no patterns; otherwise at most one pattern per line, each non-blank, not a comment and already stripped |
| Gitignore.PatternsOf | src/surquest/GCP/dataform_cli/handlers/gitignore_handler.py:42-47 | every kept pattern is non-blank, not a comment, and already stripped; no more patterns than lines |
| Gitignore.PatternsOfMembers | src/surquest/GCP/dataform_cli/handlers/gitignore_handler.py:42-47 | a pattern is kept exactly when some line strips to it and it is neither blank nor a comment |
| Gitignore.PatternsOfAppend | src/surquest/GCP/dataform_cli/handlers/gitignore_handler.py:42-47 | lines are filtered independently: the patterns of two concatenated files are the patterns of each, in order |
| Gitignore.PatternsOfPatterns | src/surquest/GCP/dataform_cli/handlers/gitignore_handler.py:42-47 | filtering is idempotent: the patterns of a pattern list are that list |
| Gitignore.PatternsOfFixed | src/surquest/GCP/dataform_cli/handlers/gitignore_handler.py:42-47 | a list of stripped, non-comment patterns passes the filter unchanged |
| Gitignore.WrittenPatternsReload | src/surquest/GCP/dataform_cli/handlers/gitignore_handler.py:32-47 | writing a list of normal-form patterns one per line and loading the file gives back the same list |
| Gitignore.IsIgnored | src/surquest/GCP/dataform_cli/handlers/gitignore_handler.py:49-78 | a path is ignored exactly when at least one loaded pattern hits it |
| Gitignore.MissingFileIgnoresNothing | src/surquest/GCP/dataform_cli/handlers/gitignore_handler.py:39-40 | without an ignore file no path is ignored |
| Gitignore.MorePatternsIgnoreMore | src/surquest/GCP/dataform_cli/handlers/gitignore_handler.py:59-65 | adding patterns never un-ignores a path (no negation) |
| Gitignore.PatternOrderIrrelevant | src/surquest/GCP/dataform_cli/handlers/gitignore_handler.py:59-65 | reordering the patterns does not change which paths are ignored |
| Gitignore.DirectoryPatternIsPrefixTest | src/surquest/GCP/dataform_cli/handlers/gitignore_handler.py:60-62 | a pattern ending in `/` ignores every path that starts with the pattern without its trailing slashes |
| Gitignore.LiteralPatternIgnoresOnlyItself | src/surquest/GCP/dataform_cli/handlers/gitignore_handler.py:59-65 | a plain pattern ignores exactly the identical path, not the same file name in a subdirectory |
| Gitignore.StarPatternIgnoresSuffix | src/surquest/GCP/dataform_cli/handlers/gitignore_handler.py:63-64 | `*` plus literal text ignores exactly the paths ending in that text, at any depth |
| Gitignore.BuildPatternSamples | src/surquest/GCP/dataform_cli/handlers/gitignore_handler.py:60-64 | `build/` ignores `build/main.o`, `build` and `buildup/file` but not `src/build/x` |
| Gitignore.SecretPatternSamples | src/surquest/GCP/dataform_cli/handlers/gitignore_handler.py:63-64 | `secret.txt` ignores `secret.txt` but not `sub/secret.txt` |
| Gitignore.LogPatternSample | src/surquest/GCP/dataform_cli/handlers/gitignore_handler.py:63-64 | `*.log` ignores `a/b/debug.log`: the star crosses directory separators |
| Gitignore.BuildOnlyLiteral | src/surquest/GCP/dataform_cli/handlers/gitignore_handler.py:63-64 | the glob step of `build/` matches no path other than `build/` itself, so the prefix test decides |
| Gitignore.TrailingSlashFallsThrough | src/surquest/GCP/dataform_cli/handlers/gitignore_handler.py:60-64 | a directory pattern whose prefix test fails is still tried as a glob: `a*/` ignores `abc/` |
| Gitignore.SlashPatternIgnoresEverything | src/surquest/GCP/dataform_cli/handlers/gitignore_handler.py:60-62 | the pattern `/` strips to the empty prefix and ignores every path |
| Workspace.PathStructure | src/surquest/GCP/dataform_cli/handlers/pull_handler.py:86-119 | a directory's structure is missing exactly when its listing raises; otherwise it keeps at most the listed entries, all of them without a handler, only listed non-ignored directories and no ignored file |
| Workspace.Partition | src/surquest/GCP/dataform_cli/handlers/pull_handler.py:86-119 | the split keeps no more entries than listed, and without a handler it keeps every entry |
| Workspace.PartitionAppend | src/surquest/GCP/dataform_cli/handlers/pull_handler.py:96-117 | entries are classified independently: splitting a concatenation concatenates the splits, in order |
| Workspace.PartitionSingle | src/surquest/GCP/dataform_cli/handlers/pull_handler.py:96-117 | one entry is dropped when ignored, else goes to the directories when it is a directory and to the files otherwise |
| Workspace.PartitionKeepsOnlyKept | src/surquest/GCP/dataform_cli/handlers/pull_handler.py:100-117 | every kept directory is a listed, non-ignored directory, and no kept file is ignored |
| Workspace.PartitionAccounts | src/surquest/GCP/dataform_cli/handlers/pull_handler.py:60-119 | the files below a listing are exactly its kept files plus the files below its kept directories, with a raising listing anywhere making the whole result fail |
| Workspace.QueueStep | src/surquest/GCP/dataform_cli/handlers/pull_handler.py:67-80 | expanding the first queued directory preserves the bag of files found so far plus files still below the queue |
| Workspace.QueueFails | src/surquest/GCP/dataform_cli/handlers/pull_handler.py:69-74 | a queued directory whose listing raises makes the whole listing fail |
| Workspace.GetWorkspaceFiles | src/surquest/GCP/dataform_cli/handlers/pull_handler.py:60-82 | the worklist loop returns, sorted, exactly the files of the recursive reference walk, or fails exactly when some listing it reaches raises |
| Workspace.WalkKeepsNoIgnoredFile | src/surquest/GCP/dataform_cli/handlers/pull_handler.py:100-117 | no listed file path is ignored by the handler |
| Workspace.IgnoredDirectoryNeverListed | src/surquest/GCP/dataform_cli/handlers/pull_handler.py:100-117 | an ignored directory is never descended into: nothing below it, even a listing that would raise, affects the result |
| Workspace.ListingOrderIrrelevant | src/surquest/GCP/dataform_cli/handlers/pull_handler.py:60-82 | the order in which the remote lists entries does not change the returned file list |
| Workspace.WalkEntriesPermutation | src/surquest/GCP/dataform_cli/handlers/pull_handler.py:60-82 | permuting a listing's entries permutes the walked files |
| LocalFiles.JoinAll | src/surquest/GCP/dataform_cli/handlers/push_handler.py:28-30 | each file name of a directory becomes the directory joined with that name, one path per name, in order |
| LocalFiles.RelativiseAll | src/surquest/GCP/dataform_cli/handlers/push_handler.py:33-35 | one relative path per walked path, in order, each with every `<source_dir>/` removed |
| LocalFiles.GetLocalFiles | src/surquest/GCP/dataform_cli/handlers/push_handler.py:13-37 | the result is sorted, has one entry per walked file, and is a permutation of the walked paths made relative |
| LocalFiles.CollectPaths | src/surquest/GCP/dataform_cli/handlers/push_handler.py:27-30 | the nested walk loop collects every walked file joined onto its directory, in walk order |
| LocalFiles.JoinEach | src/surquest/GCP/dataform_cli/handlers/push_handler.py:28-30 | the inner loop joins each name of one directory onto it, in order |
| LocalFiles.RelativiseEach | src/surquest/GCP/dataform_cli/handlers/push_handler.py:33-35 | the comprehension makes each collected path relative, in order |
| LocalFiles.RelativiseAllAppend | src/surquest/GCP/dataform_cli/handlers/push_handler.py:33-35 | paths are made relative independently of each other |
| LocalFiles.JoinedCount | src/surquest/GCP/dataform_cli/handlers/push_handler.py:27-30 | the walk yields exactly one path per file found |
| LocalFiles.RelativiseUnchanged | src/surquest/GCP/dataform_cli/handlers/push_handler.py:33-35 | a path in which `<source_dir>/` does not occur is kept as is |
| LocalFiles.RelativiseLeading | src/surquest/GCP/dataform_cli/handlers/push_handler.py:33-35 | a path made of `<source_dir>/` and a rest in which it does not occur becomes the rest |
| LocalFiles.RelativiseEveryOccurrence | src/surquest/GCP/dataform_cli/handlers/push_handler.py:33-35 | for every path, the first `<source_dir>/` is dropped and the text after it is made relative in turn, so inner occurrences go too |
| LocalFiles.EveryOccurrenceRemoved | src/surquest/GCP/dataform_cli/handlers/push_handler.py:33-35 | with source directory `src`, the path `src/a/src/b.sql` becomes `a/b.sql`: inner occurrences are removed too |
| LocalFiles.TrailingSlashKeepsPrefix | src/surquest/GCP/dataform_cli/handlers/push_handler.py:27-35 | with source directory `src/` the removed text `src//` never occurs, so `src/a.sql` keeps its prefix |
| Push.Perform | src/surquest/GCP/dataform_cli/push.py:58-101 | the calls that went through are a prefix of the planned ones and none of them raised; the run completes exactly when all went through, and otherwise stops at the first call that raises |
| Push.Execute | src/surquest/GCP/dataform_cli/push.py:58-101 | the call loop performs exactly the run of the reference definition |
| Push.PerformStep | src/surquest/GCP/dataform_cli/push.py:58-101 | a run is its first call, which either raises and ends it or is followed by the run of the rest |
| Push.UploadOps | src/surquest/GCP/dataform_cli/push.py:59-62 | one upload per local file, in the local order, from the file joined onto the source directory to its relative path |
| Push.RemoveFileOps | src/surquest/GCP/dataform_cli/push.py:66-69 | one file removal per path to delete, in order |
| Push.RemoveDirectoryOps | src/surquest/GCP/dataform_cli/push.py:87-91 | one directory removal per truly empty directory, in order |
| Push.Deletions | src/surquest/GCP/dataform_cli/push.py:66 | the paths to delete are exactly the remote files that are not local, each once |
| Push.PushTrace | src/surquest/GCP/dataform_cli/push.py:46-101 | the run ends at an uncaught error exactly when the guarded block raises one, and then nothing is done; no call that went through raised, and a run stopped by a call names a raising one |
| Push.Push | src/surquest/GCP/dataform_cli/push.py:9-103 | the imperative push performs exactly the reference run for its settings, walk, ignore file, remote answers and failing calls: nothing when the guarded block raises an error other than an API call error, otherwise the two phases with the first listing read as empty when it raised an API call error |
| Push.FirstPhaseIsPlain | src/surquest/GCP/dataform_cli/push.py:58-69 | the first phase holds no directory removal, commit or push, and its uploads are exactly its first entries, one per local file |
| Push.SecondPhaseOrder | src/surquest/GCP/dataform_cli/push.py:87-101 | directory removals come first, then the commit, then the push; the commit is present exactly with autocommit and the push exactly with autopush |
| Push.SequenceShape | src/surquest/GCP/dataform_cli/push.py:58-101 | a run performs a prefix of the first phase, enters the second only if the listings answered, completes exactly when both phases went through, and stops only at a raising call or listing |
| Push.CompletedRun | src/surquest/GCP/dataform_cli/push.py:71-101 | a completed run listed the directories and the files again after the deletions, and its calls are the planned first phase, removal of the directories resolved from that second listing, then commit and push as the flags say |
| Push.DirectoryRemovalIgnoresDeleteFlag | src/surquest/GCP/dataform_cli/push.py:64-91 | for the same answers from the remote, the second phase does not read the delete flag: two completed runs differing only in that flag do the same after their first phases; the flag still reaches the removals through the listing after the deletions, which is an input here |
| Push.SequenceUploads | src/surquest/GCP/dataform_cli/push.py:58-62 | in any run, the uploads are exactly its first entries, each for the local file at its position |
| Push.UploadsComeFirst | src/surquest/GCP/dataform_cli/push.py:43-62 | the local list is sorted, and every run starts with its uploads in that order before any other call |
| Push.SequenceDeletions | src/surquest/GCP/dataform_cli/push.py:64-69 | a file removal in a run implies the delete flag was set, the file was listed remotely and it is not local |
| Push.FirstPhaseRemovals | src/surquest/GCP/dataform_cli/push.py:64-69 | a file removal in the first phase implies the flag, the remote listing and the absence locally |
| Push.FirstPhaseRemovesMissing | src/surquest/GCP/dataform_cli/push.py:64-69 | with the flag set, the first phase removes every listed remote file that is not local |
| Push.DeletedFilesAreMissingLocally | src/surquest/GCP/dataform_cli/push.py:43-69 | push removes a remote file only when deletion is asked for, the first listing reported it and no local file has its path |
| Push.CompletedRunDeletesAllMissing | src/surquest/GCP/dataform_cli/push.py:43-69 | a completed run with deletion asked for removes every remote file of the first listing that is missing locally |
| Push.FailedListingDeletesNothing | src/surquest/GCP/dataform_cli/push.py:46-54 | when the first listing raises, no file is removed: after an API call error the run goes on as if the workspace were empty, and any other error stops it first |
| Push.IgnoredFileNeverDeleted | src/surquest/GCP/dataform_cli/push.py:46-69 | a remote file the working directory's ignore rules match is never removed |
| Push.SequenceFlags | src/surquest/GCP/dataform_cli/push.py:93-101 | a completed run commits exactly when autocommit is set and pushes exactly when autopush is set |
| Push.FlagsDecideCommitAndPush | src/surquest/GCP/dataform_cli/push.py:93-101 | for the run push makes, commit and push are each present exactly when their flag is set, independently |
| Push.SequenceCommitBeforePush | src/surquest/GCP/dataform_cli/push.py:93-101 | when the first phase holds no commit or push, a commit that went through precedes a push that went through |
| Push.CommitBeforePush | src/surquest/GCP/dataform_cli/push.py:93-101 | a commit in a run always precedes the push |
| Push.HowRunsEnd | src/surquest/GCP/dataform_cli/push.py:46-101 | an uncaught error in the guarded block is exactly what ends a run at its start, with nothing done; otherwise no call that went through raised, a run stopped by a call names a raising one, a run stops at a listing exactly when the first phase went through and an unguarded listing raised, and a run where nothing raises completes even if the first listing raised an API call error |
| Pull.FetchEvent | src/surquest/GCP/dataform_cli/pull.py:66-85 | a listed file is saved exactly when its read succeeds, under the target directory joined with its path and with the contents read; otherwise it is skipped |
| Pull.FetchEvents | src/surquest/GCP/dataform_cli/pull.py:66-85 | one event per listed file, in listing order |
| Pull.FetchAll | src/surquest/GCP/dataform_cli/pull.py:66-85 | the fetch loop produces exactly the reference events, a failed read never stopping it |
| Pull.Bootstrap | src/surquest/GCP/dataform_cli/pull.py:36-56 | the ignore-file step fails exactly when reading `.gitignore` raises something other than not-found; a handler exists exactly when the file was read, in which case the file is saved as any fetched file would be and its patterns are loaded; not-found saves nothing |
| Pull.PullTrace | src/surquest/GCP/dataform_cli/pull.py:36-85 | a pull aborts with nothing done when the ignore-file read raises, and otherwise finishes exactly when the filtered listing succeeds; an abort leaves at most the saved ignore file; a read ignore file is saved first; every saved file was read with those contents and is saved at the target path |
| Pull.Pull | src/surquest/GCP/dataform_cli/pull.py:8-87 | the imperative pull produces exactly the reference outcome: bootstrap, listing, then the fetch loop |
| Pull.NoIgnoreFileFiltersNothing | src/surquest/GCP/dataform_cli/pull.py:36-62 | without an ignore file in the workspace, the pull saves nothing first and fetches every file of the unfiltered listing |
| Pull.IgnoreFileSavedFirstAndApplied | src/surquest/GCP/dataform_cli/pull.py:36-62 | with an ignore file, its contents are saved into the target directory first, and no later event concerns a file its rules ignore |
| Pull.EachFileTriedOnce | src/surquest/GCP/dataform_cli/pull.py:58-85 | a finished pull has one event per listed file after the bootstrap, in order, saving each exactly when its read succeeds, at the target path |
| Pull.FailureIsIsolated | src/surquest/GCP/dataform_cli/pull.py:66-85 | in the fetch loop over a fixed file list, a read failing for one file changes no other file's event |
| Pull.FailureIsIsolatedInPull | src/surquest/GCP/dataform_cli/pull.py:36-85 | two whole pulls whose reads differ on one file other than `.gitignore` end alike, have as many events, and agree on every event about another file |
| Pull.EventsAfterIsolated | src/surquest/GCP/dataform_cli/pull.py:66-85 | after a common start, fetch events whose reads differ on one file agree at every position about another file |
| Pull.FailedListingAborts | src/surquest/GCP/dataform_cli/pull.py:58-62 | a listing that raises ends the pull with only the bootstrap's events |
| Udfs.GetFQN | dataform/includes/udfs.js:26-43 | a name is returned exactly when the project, dataset and a non-empty table name are all found, and it is project, dataset name and table name joined by dots; a missing `gcp` throws its own message |
| Udfs.ErrorsInOrder | dataform/includes/udfs.js:29-41 | the checks run in source order: missing `gcp` throws, a missing project raises a type error, a missing dataset throws naming it, a missing or empty table throws naming table and dataset |
| Udfs.MessagesDistinct | dataform/includes/udfs.js:31-40 | the three error messages can never be confused with one another |
| Udfs.FqnSplits | dataform/includes/udfs.js:42 | when no part contains a dot, splitting the returned name on `.` gives back the project, the dataset and the table |
| Udfs.IronsourceImpressions | dataform/includes/constants.js:1-23 | with the project configuration, `ironsource`/`impressions` resolves to `analytics-data-mart.adm_ironsource_raw.impression` |
| Udfs.AppsflyerClicksMissing | dataform/includes/constants.js:7-14 | with the project configuration, `appsflyer`/`clicks` throws the missing-table message |
| Udfs.GetColumnNullableId | dataform/includes/udfs.js:15-24 | the expression starts with `CASE` and ends without whitespace |
| Udfs.NullableIdLayout | dataform/includes/udfs.js:16-23 | the trimmed expression is five lines: `CASE`, the `NULLIF` test, the cast, `ELSE null`, and `END AS` followed by the alias, or by the column when there is none |
| Udfs.NullableIdAlias | dataform/includes/udfs.js:21 | the expression ends with ` END AS ` and the alias when one is given, otherwise the column name |
| Udfs.NullableIdTrimmed | dataform/includes/udfs.js:16-23 | trimming removes exactly the template's leading line break and indentation and its trailing line break and spaces |
| Udfs.AppName | dataform/includes/udfs.js:4-10 | a column in the first list gets the first app; one in the second list only gets the second app; one in neither gets the unknown value |
| Udfs.GetColumnAppName | dataform/includes/udfs.js:1-13 | the expression starts with `CASE WHEN <column> IN (` and ends with `' END as app_name` and the trailing text |
| Udfs.QuotedListRoundTrip | dataform/includes/udfs.js:12 | the quoted, comma-joined game list reads back as exactly the games, as long as no game contains a quote |
| Udfs.AppNameLayout | dataform/includes/udfs.js:12 | the generated SQL is a one-arm searched `CASE` over the first list, with the name-picked label, followed by ` as app_name` and the trailing text |
| Udfs.Evaluate | dataform/includes/udfs.js:12 | a row gets the label of the first arm whose list holds its value, and the `ELSE` label when no arm's list holds it |
| Udfs.AsWrittenIsConstant | dataform/includes/udfs.js:4-12 | for a column whose name is in neither list, the generated expression labels every row with the unknown value |
| Udfs.AsWrittenMislabels | dataform/includes/udfs.js:4-12 | over column `game` with first list `lgo`, a row holding `lgo` is labelled `<unknown>` |
| Udfs.IntendedLabelsRows | dataform/includes/udfs.js:4-12 | the corrected expression labels each row by the game it holds, with the same priority the helper gives the first list |

## Left out

- Push.DirectoryRemovalIgnoresDeleteFlag: the listing after the deletions (`Remote.after`) is an input, not derived from the deletions performed, so the lemma shows only that the second phase does not read the flag; in the program, deleting a directory's last files can make it resolve as empty and be removed.
- The Dataform API calls are left out: reading, writing and removing files, directory queries, commit and push. Each becomes a parameter, an oracle value (`Fetch`, `Listing`, the failing-call set) or a recorded operation. Their request objects, workspace-path formatting and retries are not modelled.
- Local file system effects are left out. Creating the target directory, `os.makedirs` and writing bytes are only recorded as events, and a local write that raises is not modelled.
- Logging (`logger.py`), the command-line entry points (`__main__.py`, `main.py`, `run.py`) and the client factory (`dataform_handler.py`) are left out because they are presentation and wiring.
- `getConfig` and the `console.log` in `getFQN` are left out: the first reads Dataform's project variables and `require`s a file, the second only writes to the console.
- `get_workspace_directories` and `get_empty_directories` are called by `push` but not defined in the files modelled here. The directory listing is an oracle answer. The reduction to truly empty directories is a function parameter (`Resolver`), so the model says nothing about which directories it picks.
- Push.Deletions enumerates the deletions in remote-list order. Python leaves the iteration order of a set unspecified, so the order of removal calls in a real run may differ.
- Glob.Compile covers the fnmatch syntax the patterns use: `*`, `?`, `[...]` and `[!...]` classes with ranges, and an unclosed `[` as a literal. Case normalisation on case-insensitive platforms is not modelled; on POSIX `fnmatch` is case-sensitive.
- Udfs.GetFQN models a missing `project` as a type error. It does not model the string `undefined` that a present `project` without an `id` would produce. It also leaves out keys inherited from JavaScript's object prototype, and a configuration without `sources` or `tables`.
- Every configured name is a string: a JavaScript configuration holding other values (numbers, nested objects where a name is expected) is not modelled.
- File contents are strings, not bytes: the decoding of `file_contents` is not modelled.
- There is no corrected helper that renders the intended app-name `CASE` as text; the correction is stated on the `CASE` value (`IntendedCase`) and its evaluation.

## Findings

| source | as written | input that shows it | evidently intended | confidence | as-written member | corrected member |
|---|---|---|---|---|---|---|
| dataform/includes/udfs.js:4-12 | the `THEN` label is chosen by testing the column's NAME against the game lists, and the second list never appears in the SQL, so the `CASE` gives one label for every row | `getColumnAppName("game", ["lgo"], ["lrt"])`: a row whose `game` is `lgo` is labelled `<unknown>` and a row holding `lrt` too | one `WHEN` arm per list, labelling each row by the game it holds, first list first | high that the SQL is as stated; medium that it is unintended; not executed | Udfs.AsWrittenMislabels | Udfs.IntendedLabelsRows |
