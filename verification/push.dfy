/** `push`: mirrors a local source directory into a workspace. Every local
    file is uploaded, remote files missing locally are removed when asked,
    directories the remote reports as truly empty are removed, and the
    changes are committed and pushed when asked. The remote calls are
    recorded as a trace of operations; a set of failing operations stands in
    for the calls that raise, and the first one to raise ends the run. Only
    the first listing is guarded, and only against API call errors. */
module Push {
  import opened Options
  import opened Text
  import Gitignore
  import opened Workspace
  import opened LocalFiles

  /** The message every automatic commit carries. */
  const CommitMessage: string := "Automated push from CLI"

  /** One remote operation push performs. */
  datatype Op =
    | Upload(source: string, target: string)
    | RemoveFile(path: string)
    | RemoveDirectory(path: string)
    | Commit(message: string)
    | PushCommits

  /** How a run ends: after its last operation, at an operation that raised,
      at one of the two unguarded listing calls that raised, or, before any
      remote change, at an error the guarded first listing does not catch. */
  datatype Halt = Completed | OpFailed(op: Op) | ListingFailed | Uncaught

  /** The operations that went through, and how the run ended. */
  datatype Run = Run(done: seq<Op>, halt: Halt)

  /** The arguments of `push` besides the workspace coordinates. */
  datatype Settings = Settings(sourceDir: string, deleteRemote: bool, autocommit: bool, autopush: bool)

  /** What the remote answers to the listing calls: the workspace before any
      change, the pair (empty directories, non-empty directories) or `None`
      when that call raises, and the workspace after the deletions.
      `uncaught` says that the guarded block around the first listing raises
      an error its `except GoogleAPICallError` clause does not catch: a
      `RetryError` or an authentication error from the listing, or an error
      reading the working directory's `.gitignore` while the ignore handler
      is built. A listing that raises while `uncaught` is false raised a
      `GoogleAPICallError`, which is caught. */
  datatype Remote = Remote(before: Listing, uncaught: bool, directories: Option<(seq<string>, seq<string>)>, after: Listing)

  /** Turns the directories reported empty and the remaining files into the
      directories that are truly empty; the remote helper behind it is
      not part of this model. */
  type Resolver = (seq<string>, seq<string>) -> seq<string>

  predicate IsPrefix(a: seq<Op>, b: seq<Op>) {
    |a| <= |b| && b[..|a|] == a
  }

  /** Runs operations in order until one raises. */
  function Perform(ops: seq<Op>, failing: set<Op>): (r: Run)
    ensures r.halt.Completed? || r.halt.OpFailed?
    ensures IsPrefix(r.done, ops)
    ensures forall i :: 0 <= i < |r.done| ==> r.done[i] !in failing
    ensures r.halt.Completed? <==> r.done == ops
    ensures r.halt.OpFailed? ==> |r.done| < |ops| && ops[|r.done|] == r.halt.op && r.halt.op in failing
    decreases |ops|
  {
    if |ops| == 0 then Run([], Completed)
    else if ops[0] in failing then Run([], OpFailed(ops[0]))
    else
      var rest := Perform(ops[1..], failing);
      Run([ops[0]] + rest.done, rest.halt)
  }

  /** The upload of every local file to the same relative path. */
  function UploadOps(sourceDir: string, local: seq<string>): (ops: seq<Op>)
    ensures |ops| == |local|
    ensures forall i :: 0 <= i < |local| ==> ops[i] == Upload(PathJoin(sourceDir, local[i]), local[i])
    decreases |local|
  {
    if |local| == 0 then [] else [Upload(PathJoin(sourceDir, local[0]), local[0])] + UploadOps(sourceDir, local[1..])
  }

  function RemoveFileOps(paths: seq<string>): (ops: seq<Op>)
    ensures |ops| == |paths|
    ensures forall i :: 0 <= i < |paths| ==> ops[i] == RemoveFile(paths[i])
    decreases |paths|
  {
    if |paths| == 0 then [] else [RemoveFile(paths[0])] + RemoveFileOps(paths[1..])
  }

  function RemoveDirectoryOps(paths: seq<string>): (ops: seq<Op>)
    ensures |ops| == |paths|
    ensures forall i :: 0 <= i < |paths| ==> ops[i] == RemoveDirectory(paths[i])
    decreases |paths|
  {
    if |paths| == 0 then [] else [RemoveDirectory(paths[0])] + RemoveDirectoryOps(paths[1..])
  }

  /** The commit, then the push, each only when its flag is set. */
  function FinishOps(s: Settings): seq<Op> {
    (if s.autocommit then [Commit(CommitMessage)] else []) + (if s.autopush then [PushCommits] else [])
  }

  predicate NoDuplicates(s: seq<string>) {
    forall i, j :: 0 <= i < j < |s| ==> s[i] != s[j]
  }

  /** The remote files missing locally, each once: an enumeration of
      `set(remote_files) - set(local_files)`. Python leaves the order of a
      set unspecified; the model takes the order of the remote list. */
  function Deletions(remote: seq<string>, local: seq<string>): (r: seq<string>)
    ensures forall p :: p in r <==> p in remote && p !in local
    ensures NoDuplicates(r)
    decreases |remote|
  {
    if |remote| == 0 then []
    else
      var rest := Deletions(remote[1..], local);
      if remote[0] in local || remote[0] in remote[1..] then rest
      else [remote[0]] + rest
  }

  /** The local files as `get_local_files` returns them. */
  function LocalPaths(sourceDir: string, walk: seq<WalkStep>): seq<string> {
    Sort(RelativiseAll(sourceDir, Joined(walk)))
  }

  /** The remote files of the first listing; a listing that raises counts as
      no remote files at all. */
  function RemoteBefore(before: Listing, patterns: seq<string>): seq<string> {
    match WorkspaceFiles(before, Some(patterns))
    case None => []
    case Some(files) => files
  }

  /** Uploads, then deletions when asked. */
  function FirstPhase(s: Settings, local: seq<string>, remoteFiles: seq<string>): seq<Op> {
    UploadOps(s.sourceDir, local) + (if s.deleteRemote then RemoveFileOps(Deletions(remoteFiles, local)) else [])
  }

  /** Directory removals, then commit and push. */
  function SecondPhase(s: Settings, empty: seq<string>): seq<Op> {
    RemoveDirectoryOps(empty) + FinishOps(s)
  }

  /** The local files and the first listing decide the first phase. */
  function PlannedFirst(s: Settings, walk: seq<WalkStep>, ignoreFile: Option<string>, remote: Remote): seq<Op> {
    FirstPhase(s, LocalPaths(s.sourceDir, walk), RemoteBefore(remote.before, Gitignore.LoadPatterns(ignoreFile)))
  }

  /** The directories to remove, as resolved from the directory listing and
      the listing after the deletions; `None` when either of those two
      unguarded calls raises. */
  function Empties(remote: Remote, patterns: seq<string>, resolve: Resolver): Option<seq<string>> {
    if remote.directories.None? then None
    else match WorkspaceFiles(remote.after, Some(patterns))
      case None => None
      case Some(files) => Some(resolve(remote.directories.value.0, files))
  }

  /** The first phase, then, if it completed and the listings answered, the
      second phase. */
  function Sequence(s: Settings, first: seq<Op>, empties: Option<seq<string>>, failing: set<Op>): Run {
    var p1 := Perform(first, failing);
    if !p1.halt.Completed? then p1
    else match empties
      case None => Run(p1.done, ListingFailed)
      case Some(e) =>
        var p2 := Perform(SecondPhase(s, e), failing);
        Run(p1.done + p2.done, p2.halt)
  }

  /** The run `push` makes. The ignore file is the one in the working
      directory; `None` when it is missing. An uncaught error in the guarded
      block ends the run before its first remote operation. */
  function PushTrace(s: Settings, walk: seq<WalkStep>, ignoreFile: Option<string>, remote: Remote,
                     resolve: Resolver, failing: set<Op>): (r: Run)
    ensures r.halt.Uncaught? <==> remote.uncaught
    ensures remote.uncaught ==> r.done == []
    ensures forall i :: 0 <= i < |r.done| ==> r.done[i] !in failing
    ensures r.halt.OpFailed? ==> r.halt.op in failing
  {
    if remote.uncaught then Run([], Uncaught)
    else
      var first := PlannedFirst(s, walk, ignoreFile, remote);
      var empties := Empties(remote, Gitignore.LoadPatterns(ignoreFile), resolve);
      SequenceShape(s, first, empties, failing, Sequence(s, first, empties, failing));
      Sequence(s, first, empties, failing)
  }

  /** The operation loop: each operation in turn, stopping at the first that
      raises. */
  method Execute(ops: seq<Op>, failing: set<Op>) returns (r: Run)
    ensures r == Perform(ops, failing)
  {
    var done: seq<Op> := [];
    var i := 0;
    while i < |ops|
      invariant 0 <= i <= |ops|
      invariant done == ops[..i]
      invariant Perform(ops, failing) == After(done, Perform(ops[i..], failing))
    {
      var tail := ops[i..];
      PerformStep(tail, failing);
      assert tail[0] == ops[i] && tail[1..] == ops[i + 1..];
      if ops[i] in failing {
        assert done + [] == done;
        return Run(done, OpFailed(ops[i]));
      }
      AfterAfter(done, [ops[i]], Perform(ops[i + 1..], failing));
      done := done + [ops[i]];
      i := i + 1;
    }
    assert ops[i..] == [];
    assert done + [] == done;
    r := Run(done, Completed);
  }

  /** A run preceded by operations already done. */
  function After(done: seq<Op>, r: Run): Run {
    Run(done + r.done, r.halt)
  }

  lemma AfterAfter(a: seq<Op>, b: seq<Op>, r: Run)
    ensures After(a, After(b, r)) == After(a + b, r)
  {
    assert a + (b + r.done) == (a + b) + r.done;
  }

  /** One operation performed: the run stops on it when it fails and goes
      on with the rest otherwise. */
  lemma PerformStep(ops: seq<Op>, failing: set<Op>)
    requires |ops| > 0
    ensures Perform(ops, failing)
            == if ops[0] in failing then Run([], OpFailed(ops[0])) else After([ops[0]], Perform(ops[1..], failing))
  {
  }

  /** `push`: scans the local files, lists the remote, uploads, deletes,
      lists again, removes empty directories, commits and pushes. */
  method Push(s: Settings, walk: seq<WalkStep>, ignoreFile: Option<string>, remote: Remote,
              resolve: Resolver, failing: set<Op>) returns (r: Run)
    ensures r == PushTrace(s, walk, ignoreFile, remote, resolve, failing)
  {
    var local := GetLocalFiles(s.sourceDir, walk);
    SortedUnique(local, LocalPaths(s.sourceDir, walk));
    if remote.uncaught {
      return Run([], Uncaught);
    }
    var patterns := Gitignore.LoadPatterns(ignoreFile);
    var listed := GetWorkspaceFiles(remote.before, Some(patterns));
    var remoteFiles := if listed.Some? then listed.value else [];
    var first := Execute(FirstPhase(s, local, remoteFiles), failing);
    if !first.halt.Completed? {
      return first;
    }
    if remote.directories.None? {
      return Run(first.done, ListingFailed);
    }
    var after := GetWorkspaceFiles(remote.after, Some(patterns));
    if after.None? {
      return Run(first.done, ListingFailed);
    }
    var second := Execute(SecondPhase(s, resolve(remote.directories.value.0, after.value)), failing);
    r := Run(first.done + second.done, second.halt);
  }

  // ----- the two phases -----

  /** Neither the uploads, the deletions nor the directory removals commit
      or push. */
  predicate Plain(op: Op) {
    !op.Commit? && !op.PushCommits?
  }

  lemma FirstPhaseIsPlain(s: Settings, local: seq<string>, remoteFiles: seq<string>)
    ensures forall i :: 0 <= i < |FirstPhase(s, local, remoteFiles)| ==>
              (Plain(FirstPhase(s, local, remoteFiles)[i]) && !FirstPhase(s, local, remoteFiles)[i].RemoveDirectory?)
    ensures forall i :: 0 <= i < |FirstPhase(s, local, remoteFiles)| ==>
              (FirstPhase(s, local, remoteFiles)[i].Upload? <==> i < |local|)
  {
  }

  /** In the second phase the directory removals come first, then the
      commit, then the push. */
  lemma SecondPhaseOrder(s: Settings, empty: seq<string>)
    ensures forall i :: 0 <= i < |SecondPhase(s, empty)| ==>
              (SecondPhase(s, empty)[i].RemoveDirectory? <==> i < |empty|)
    ensures forall i :: 0 <= i < |SecondPhase(s, empty)| ==>
              (SecondPhase(s, empty)[i].RemoveDirectory? || SecondPhase(s, empty)[i].Commit? || SecondPhase(s, empty)[i].PushCommits?)
    ensures forall i, j :: (0 <= i < |SecondPhase(s, empty)| && 0 <= j < |SecondPhase(s, empty)|
              && SecondPhase(s, empty)[i].Commit? && SecondPhase(s, empty)[j].PushCommits?) ==> i < j
    ensures Commit(CommitMessage) in SecondPhase(s, empty) <==> s.autocommit
    ensures PushCommits in SecondPhase(s, empty) <==> s.autopush
  {
    var dirs := RemoveDirectoryOps(empty);
    var second := SecondPhase(s, empty);
    assert forall op :: op in second <==> op in dirs || op in FinishOps(s);
    assert forall i :: |dirs| <= i < |second| ==> second[i] == FinishOps(s)[i - |dirs|];
  }

  /** A run performs a prefix of its first phase and, only when that phase
      completed and the listings answered, continues into the second. */
  lemma SequenceShape(s: Settings, first: seq<Op>, empties: Option<seq<string>>, failing: set<Op>, r: Run)
    requires r == Sequence(s, first, empties, failing)
    ensures forall i :: 0 <= i < |r.done| && i < |first| ==> r.done[i] == first[i]
    ensures |r.done| > |first| ==> empties.Some? && IsPrefix(r.done[|first|..], SecondPhase(s, empties.value))
    ensures r.halt.Completed? <==> empties.Some? && r.done == first + SecondPhase(s, empties.value)
    ensures forall i :: 0 <= i < |r.done| ==> r.done[i] !in failing
    ensures r.halt.OpFailed? ==> r.halt.op in failing
    ensures r.halt.ListingFailed? ==> empties.None?
  {
    var p1 := Perform(first, failing);
    if p1.halt.Completed? && empties.Some? {
      var p2 := Perform(SecondPhase(s, empties.value), failing);
      assert r.done[|first|..] == p2.done;
      if r.done == first + SecondPhase(s, empties.value) {
        assert p2.done == SecondPhase(s, empties.value);
      }
    }
  }

  // ----- what a run does -----

  /** A run that completes lists the workspace again after the deletions,
      removes exactly the directories resolved from that listing, then
      commits and pushes as the flags say. */
  lemma CompletedRun(s: Settings, walk: seq<WalkStep>, ignoreFile: Option<string>, remote: Remote,
                     resolve: Resolver, failing: set<Op>, r: Run)
    requires r == PushTrace(s, walk, ignoreFile, remote, resolve, failing)
    requires r.halt.Completed?
    ensures remote.directories.Some?
    ensures WorkspaceFiles(remote.after, Some(Gitignore.LoadPatterns(ignoreFile))).Some?
    ensures r.done == PlannedFirst(s, walk, ignoreFile, remote)
                    + RemoveDirectoryOps(resolve(remote.directories.value.0,
                                                 WorkspaceFiles(remote.after, Some(Gitignore.LoadPatterns(ignoreFile))).value))
                    + FinishOps(s)
  {
    assert !remote.uncaught;
    var first := PlannedFirst(s, walk, ignoreFile, remote);
    var empties := Empties(remote, Gitignore.LoadPatterns(ignoreFile), resolve);
    SequenceShape(s, first, empties, failing, r);
  }

  /** For the same answers from the remote, the second phase does not read
      the delete flag: two completed runs that differ only in that flag do
      the same after their first phases. The flag still affects the
      removals through what the listing after the deletions reports, which
      the model takes as an input. */
  lemma DirectoryRemovalIgnoresDeleteFlag(s: Settings, walk: seq<WalkStep>, ignoreFile: Option<string>, remote: Remote,
                                          resolve: Resolver, failing: set<Op>, r1: Run, r2: Run)
    requires r1 == PushTrace(s, walk, ignoreFile, remote, resolve, failing)
    requires r2 == PushTrace(s.(deleteRemote := !s.deleteRemote), walk, ignoreFile, remote, resolve, failing)
    requires r1.halt.Completed? && r2.halt.Completed?
    ensures r1.done[|PlannedFirst(s, walk, ignoreFile, remote)|..]
         == r2.done[|PlannedFirst(s.(deleteRemote := !s.deleteRemote), walk, ignoreFile, remote)|..]
  {
    assert !remote.uncaught;
    var s2 := s.(deleteRemote := !s.deleteRemote);
    var empties := Empties(remote, Gitignore.LoadPatterns(ignoreFile), resolve);
    var f1, f2 := PlannedFirst(s, walk, ignoreFile, remote), PlannedFirst(s2, walk, ignoreFile, remote);
    SequenceShape(s, f1, empties, failing, r1);
    SequenceShape(s2, f2, empties, failing, r2);
    assert SecondPhase(s, empties.value) == SecondPhase(s2, empties.value);
    assert r1.done[|f1|..] == SecondPhase(s, empties.value);
    assert r2.done[|f2|..] == SecondPhase(s2, empties.value);
  }

  /** In any run the uploads are exactly its first operations, one per
      local file, in the order of the local list. */
  lemma SequenceUploads(s: Settings, local: seq<string>, remoteFiles: seq<string>, empties: Option<seq<string>>,
                        failing: set<Op>, r: Run)
    requires r == Sequence(s, FirstPhase(s, local, remoteFiles), empties, failing)
    ensures forall i :: 0 <= i < |r.done| ==> (r.done[i].Upload? <==> i < |local|)
    ensures forall i :: 0 <= i < |r.done| && i < |local| ==> r.done[i] == Upload(PathJoin(s.sourceDir, local[i]), local[i])
  {
    var first := FirstPhase(s, local, remoteFiles);
    SequenceShape(s, first, empties, failing, r);
    FirstPhaseIsPlain(s, local, remoteFiles);
    assert forall i :: 0 <= i < |local| ==> first[i] == Upload(PathJoin(s.sourceDir, local[i]), local[i]);
    UploadsLead(s, local, first, empties, r.done);
  }

  /** Operations that follow a first phase led by the uploads, then a prefix
      of the second phase, are led by the same uploads and hold no other. */
  lemma UploadsLead(s: Settings, local: seq<string>, first: seq<Op>, empties: Option<seq<string>>, done: seq<Op>)
    requires |local| <= |first|
    requires forall i :: 0 <= i < |first| ==> (first[i].Upload? <==> i < |local|)
    requires forall i :: 0 <= i < |local| ==> first[i] == Upload(PathJoin(s.sourceDir, local[i]), local[i])
    requires forall i :: 0 <= i < |done| && i < |first| ==> done[i] == first[i]
    requires |done| > |first| ==> empties.Some? && IsPrefix(done[|first|..], SecondPhase(s, empties.value))
    ensures forall i :: 0 <= i < |done| ==> (done[i].Upload? <==> i < |local|)
    ensures forall i :: 0 <= i < |done| && i < |local| ==> done[i] == Upload(PathJoin(s.sourceDir, local[i]), local[i])
  {
    if |done| > |first| {
      SecondPhaseOrder(s, empties.value);
      forall i | |first| <= i < |done| ensures !done[i].Upload? {
        assert done[i] == done[|first|..][i - |first|];
        assert done[i] == SecondPhase(s, empties.value)[i - |first|];
      }
    }
  }

  /** Every local file is uploaded, in sorted order, before any other
      operation: the uploads are exactly the first operations of the run. */
  lemma UploadsComeFirst(s: Settings, walk: seq<WalkStep>, ignoreFile: Option<string>, remote: Remote,
                         resolve: Resolver, failing: set<Op>, r: Run)
    requires r == PushTrace(s, walk, ignoreFile, remote, resolve, failing)
    ensures Sorted(LocalPaths(s.sourceDir, walk))
    ensures forall i :: 0 <= i < |r.done| ==> (r.done[i].Upload? <==> i < |LocalPaths(s.sourceDir, walk)|)
    ensures forall i :: 0 <= i < |r.done| && i < |LocalPaths(s.sourceDir, walk)|
              ==> r.done[i] == Upload(PathJoin(s.sourceDir, LocalPaths(s.sourceDir, walk)[i]), LocalPaths(s.sourceDir, walk)[i])
  {
    if !remote.uncaught {
      SequenceUploads(s, LocalPaths(s.sourceDir, walk), RemoteBefore(remote.before, Gitignore.LoadPatterns(ignoreFile)),
                      Empties(remote, Gitignore.LoadPatterns(ignoreFile), resolve), failing, r);
    }
  }

  /** In any run a file is removed only when deletion is asked for, and
      only a remote file missing locally. */
  lemma SequenceDeletions(s: Settings, local: seq<string>, remoteFiles: seq<string>, empties: Option<seq<string>>,
                          failing: set<Op>, r: Run, p: string)
    requires r == Sequence(s, FirstPhase(s, local, remoteFiles), empties, failing)
    requires RemoveFile(p) in r.done
    ensures s.deleteRemote && p in remoteFiles && p !in local
  {
    SequenceShape(s, FirstPhase(s, local, remoteFiles), empties, failing, r);
    RemovalsComeFromFirst(s, FirstPhase(s, local, remoteFiles), empties, r.done, p);
    FirstPhaseRemovals(s, local, remoteFiles, p);
  }

  /** The second phase removes no file: a run whose operations follow the
      first phase and then the second removes only files the first phase
      removes. */
  lemma RemovalsComeFromFirst(s: Settings, first: seq<Op>, empties: Option<seq<string>>, done: seq<Op>, p: string)
    requires forall i :: 0 <= i < |done| && i < |first| ==> done[i] == first[i]
    requires |done| > |first| ==> empties.Some? && IsPrefix(done[|first|..], SecondPhase(s, empties.value))
    requires RemoveFile(p) in done
    ensures RemoveFile(p) in first
  {
    var i :| 0 <= i < |done| && done[i] == RemoveFile(p);
    if i < |first| {
      assert first[i] == RemoveFile(p);
    } else {
      var second := SecondPhase(s, empties.value);
      assert done[i] == done[|first|..][i - |first|];
      assert done[i] == second[i - |first|];
      SecondPhaseOrder(s, empties.value);
    }
  }

  /** The first phase removes a file only when deletion is asked for, and
      only a remote file missing locally. */
  lemma FirstPhaseRemovals(s: Settings, local: seq<string>, remoteFiles: seq<string>, p: string)
    requires RemoveFile(p) in FirstPhase(s, local, remoteFiles)
    ensures s.deleteRemote && p in remoteFiles && p !in local
  {
    var first := FirstPhase(s, local, remoteFiles);
    var i :| 0 <= i < |first| && first[i] == RemoveFile(p);
    var gone := Deletions(remoteFiles, local);
    assert i >= |local|;
    assert s.deleteRemote;
    assert first[i] == RemoveFileOps(gone)[i - |local|];
    assert gone[i - |local|] == p;
  }

  /** A file is removed only when deletion is asked for, the first listing
      reported it and no local file has its path. */
  lemma DeletedFilesAreMissingLocally(s: Settings, walk: seq<WalkStep>, ignoreFile: Option<string>, remote: Remote,
                                      resolve: Resolver, failing: set<Op>, r: Run, p: string)
    requires r == PushTrace(s, walk, ignoreFile, remote, resolve, failing)
    requires RemoveFile(p) in r.done
    ensures s.deleteRemote
    ensures p in RemoteBefore(remote.before, Gitignore.LoadPatterns(ignoreFile))
    ensures p !in LocalPaths(s.sourceDir, walk)
  {
    assert !remote.uncaught;
    SequenceDeletions(s, LocalPaths(s.sourceDir, walk), RemoteBefore(remote.before, Gitignore.LoadPatterns(ignoreFile)),
                      Empties(remote, Gitignore.LoadPatterns(ignoreFile), resolve), failing, r, p);
  }

  /** A completed run with deletion asked for removes every remote file of
      the first listing that is missing locally. */
  lemma CompletedRunDeletesAllMissing(s: Settings, walk: seq<WalkStep>, ignoreFile: Option<string>, remote: Remote,
                                      resolve: Resolver, failing: set<Op>, r: Run, p: string)
    requires r == PushTrace(s, walk, ignoreFile, remote, resolve, failing)
    requires r.halt.Completed? && s.deleteRemote
    requires p in RemoteBefore(remote.before, Gitignore.LoadPatterns(ignoreFile))
    requires p !in LocalPaths(s.sourceDir, walk)
    ensures RemoveFile(p) in r.done
  {
    assert !remote.uncaught;
    var local := LocalPaths(s.sourceDir, walk);
    var remoteFiles := RemoteBefore(remote.before, Gitignore.LoadPatterns(ignoreFile));
    var first := FirstPhase(s, local, remoteFiles);
    var empties := Empties(remote, Gitignore.LoadPatterns(ignoreFile), resolve);
    SequenceShape(s, first, empties, failing, r);
    FirstPhaseRemovesMissing(s, local, remoteFiles, p);
    assert r.done == first + SecondPhase(s, empties.value);
  }

  /** With deletion asked for, the first phase removes every remote file
      missing locally. */
  lemma FirstPhaseRemovesMissing(s: Settings, local: seq<string>, remoteFiles: seq<string>, p: string)
    requires s.deleteRemote && p in remoteFiles && p !in local
    ensures RemoveFile(p) in FirstPhase(s, local, remoteFiles)
  {
    var first := FirstPhase(s, local, remoteFiles);
    var gone := Deletions(remoteFiles, local);
    var j :| 0 <= j < |gone| && gone[j] == p;
    assert first[|local| + j] == RemoveFile(p);
  }

  /** When the first listing raises, push carries on as if the workspace
      were empty, so no file is removed. */
  lemma FailedListingDeletesNothing(s: Settings, walk: seq<WalkStep>, ignoreFile: Option<string>, remote: Remote,
                                    resolve: Resolver, failing: set<Op>, r: Run)
    requires r == PushTrace(s, walk, ignoreFile, remote, resolve, failing)
    requires WorkspaceFiles(remote.before, Some(Gitignore.LoadPatterns(ignoreFile))).None?
    ensures forall i :: 0 <= i < |r.done| ==> !r.done[i].RemoveFile?
  {
    forall i | 0 <= i < |r.done| ensures !r.done[i].RemoveFile? {
      if r.done[i].RemoveFile? {
        DeletedFilesAreMissingLocally(s, walk, ignoreFile, remote, resolve, failing, r, r.done[i].path);
      }
    }
  }

  /** The remote side is filtered by the ignore rules and the local side is
      not, so a remote file the rules ignore is never removed. */
  lemma IgnoredFileNeverDeleted(s: Settings, walk: seq<WalkStep>, ignoreFile: Option<string>, remote: Remote,
                                resolve: Resolver, failing: set<Op>, r: Run, p: string)
    requires r == PushTrace(s, walk, ignoreFile, remote, resolve, failing)
    requires Gitignore.IsIgnored(Gitignore.LoadPatterns(ignoreFile), p)
    ensures RemoveFile(p) !in r.done
  {
    if RemoveFile(p) in r.done {
      DeletedFilesAreMissingLocally(s, walk, ignoreFile, remote, resolve, failing, r, p);
      var h := Some(Gitignore.LoadPatterns(ignoreFile));
      var walked := Walk(remote.before, h).value;
      assert p in multiset(Sort(walked));
      WalkKeepsNoIgnoredFile(remote.before, h);
    }
  }

  /** A completed run commits exactly when `autocommit` is set and pushes
      exactly when `autopush` is set, independently of each other. */
  lemma SequenceFlags(s: Settings, first: seq<Op>, empties: Option<seq<string>>, failing: set<Op>, r: Run)
    requires r == Sequence(s, first, empties, failing)
    requires forall i :: 0 <= i < |first| ==> Plain(first[i])
    requires r.halt.Completed?
    ensures Commit(CommitMessage) in r.done <==> s.autocommit
    ensures PushCommits in r.done <==> s.autopush
  {
    SequenceShape(s, first, empties, failing, r);
    SecondPhaseOrder(s, empties.value);
    var second := SecondPhase(s, empties.value);
    assert forall op :: op in r.done <==> op in first || op in second;
    assert Commit(CommitMessage) !in first && PushCommits !in first;
  }

  lemma FlagsDecideCommitAndPush(s: Settings, walk: seq<WalkStep>, ignoreFile: Option<string>, remote: Remote,
                                 resolve: Resolver, failing: set<Op>, r: Run)
    requires r == PushTrace(s, walk, ignoreFile, remote, resolve, failing)
    requires r.halt.Completed?
    ensures Commit(CommitMessage) in r.done <==> s.autocommit
    ensures PushCommits in r.done <==> s.autopush
  {
    assert !remote.uncaught;
    var local := LocalPaths(s.sourceDir, walk);
    var remoteFiles := RemoteBefore(remote.before, Gitignore.LoadPatterns(ignoreFile));
    FirstPhaseIsPlain(s, local, remoteFiles);
    SequenceFlags(s, FirstPhase(s, local, remoteFiles), Empties(remote, Gitignore.LoadPatterns(ignoreFile), resolve), failing, r);
  }

  /** In a run whose first phase holds no commit or push, a commit that
      went through comes before a push that went through. */
  lemma SequenceCommitBeforePush(s: Settings, first: seq<Op>, empties: Option<seq<string>>, failing: set<Op>,
                                 r: Run, i: int, j: int)
    requires r == Sequence(s, first, empties, failing)
    requires forall k :: 0 <= k < |first| ==> Plain(first[k])
    requires 0 <= i < |r.done| && 0 <= j < |r.done|
    requires r.done[i].Commit? && r.done[j].PushCommits?
    ensures i < j
  {
    SequenceShape(s, first, empties, failing, r);
    assert i >= |first| && j >= |first|;
    SecondPhaseOrder(s, empties.value);
    var rest := r.done[|first|..];
    assert rest[i - |first|] == r.done[i] && rest[j - |first|] == r.done[j];
  }

  /** The commit, when there is one, comes before the push. */
  lemma CommitBeforePush(s: Settings, walk: seq<WalkStep>, ignoreFile: Option<string>, remote: Remote,
                         resolve: Resolver, failing: set<Op>, r: Run, i: int, j: int)
    requires r == PushTrace(s, walk, ignoreFile, remote, resolve, failing)
    requires 0 <= i < |r.done| && 0 <= j < |r.done|
    requires r.done[i].Commit? && r.done[j].PushCommits?
    ensures i < j
  {
    assert !remote.uncaught;
    var local := LocalPaths(s.sourceDir, walk);
    var remoteFiles := RemoteBefore(remote.before, Gitignore.LoadPatterns(ignoreFile));
    FirstPhaseIsPlain(s, local, remoteFiles);
    SequenceCommitBeforePush(s, FirstPhase(s, local, remoteFiles),
                             Empties(remote, Gitignore.LoadPatterns(ignoreFile), resolve), failing, r, i, j);
  }

  /** An error the guarded block does not catch ends the run before any
      remote operation. Otherwise a run ends early only at an operation
      that raised, and nothing that went through raised; or at one of the
      two unguarded listing calls. A run in which nothing raises and no
      uncaught error occurs completes, whatever the first listing did. */
  lemma HowRunsEnd(s: Settings, walk: seq<WalkStep>, ignoreFile: Option<string>, remote: Remote,
                   resolve: Resolver, failing: set<Op>, r: Run)
    requires r == PushTrace(s, walk, ignoreFile, remote, resolve, failing)
    ensures forall i :: 0 <= i < |r.done| ==> r.done[i] !in failing
    ensures r.halt.OpFailed? ==> r.halt.op in failing
    ensures r.halt.Uncaught? <==> remote.uncaught
    ensures remote.uncaught ==> r.done == []
    ensures r.halt.ListingFailed? <==>
              !remote.uncaught
              && Perform(PlannedFirst(s, walk, ignoreFile, remote), failing).halt.Completed?
              && (remote.directories.None? || WorkspaceFiles(remote.after, Some(Gitignore.LoadPatterns(ignoreFile))).None?)
    ensures failing == {} && !remote.uncaught && remote.directories.Some?
            && WorkspaceFiles(remote.after, Some(Gitignore.LoadPatterns(ignoreFile))).Some?
            ==> r.halt.Completed?
  {
    if !remote.uncaught {
      var first := PlannedFirst(s, walk, ignoreFile, remote);
      var empties := Empties(remote, Gitignore.LoadPatterns(ignoreFile), resolve);
      SequenceShape(s, first, empties, failing, r);
    }
  }
}
