/** `pull`: mirrors a workspace into a local target directory. The workspace's
    `.gitignore` is fetched first and, when present, saved and used to filter
    the listing; then every listed file is fetched and saved, and a file that
    cannot be fetched is logged and skipped. Reading a file is a parameter;
    saving is recorded as an event. */
module Pull {
  import opened Options
  import opened Text
  import Gitignore
  import opened Workspace

  /** The ignore file's name, both in the workspace and in the target. */
  const IgnoreFileName: string := ".gitignore"

  /** What reading one workspace file gives: its contents, the remote's
      not-found error, or any other error. */
  datatype Fetch = Content(text: string) | NotFound | Failed

  /** One effect of a pull: a workspace file saved at a local path, or a
      file whose fetch failed and was skipped. */
  datatype Event = Saved(remote: string, local: string, text: string) | Skipped(remote: string)

  /** A pull runs to the end, or is cut short by an error it does not catch:
      a failed read of the ignore file other than not-found, or a listing
      call that raises. */
  datatype Outcome = Finished(events: seq<Event>) | Aborted(events: seq<Event>)

  /** The workspace file an event is about. */
  function Subject(e: Event): string {
    match e
    case Saved(remote, _, _) => remote
    case Skipped(remote) => remote
  }

  /** What happens to one listed file. */
  function FetchEvent(targetDir: string, file: string, read: string -> Fetch): (e: Event)
    ensures Subject(e) == file
    ensures e.Saved? <==> read(file).Content?
    ensures e.Saved? ==> e.local == PathJoin(targetDir, file) && e.text == read(file).text
  {
    match read(file)
    case Content(text) => Saved(file, PathJoin(targetDir, file), text)
    case _ => Skipped(file)
  }

  /** The fetch loop over the listed files. */
  function FetchEvents(targetDir: string, files: seq<string>, read: string -> Fetch): (es: seq<Event>)
    ensures |es| == |files|
    ensures forall i :: 0 <= i < |files| ==> es[i] == FetchEvent(targetDir, files[i], read)
    decreases |files|
  {
    if |files| == 0 then [] else [FetchEvent(targetDir, files[0], read)] + FetchEvents(targetDir, files[1..], read)
  }

  /** The ignore-file bootstrap: the events it causes and the ignore
      handler it yields, or `None` when the read raises an error other than
      not-found. */
  function Bootstrap(targetDir: string, read: string -> Fetch): (r: Option<(seq<Event>, Handler)>)
    ensures r.None? <==> read(IgnoreFileName).Failed?
    ensures r.Some? ==> (r.value.1.Some? <==> read(IgnoreFileName).Content?)
    ensures r.Some? ==> (r.value.0 == [] <==> read(IgnoreFileName).NotFound?)
    ensures read(IgnoreFileName).Content? ==>
              r.value.0 == [FetchEvent(targetDir, IgnoreFileName, read)]
              && r.value.1 == Some(Gitignore.LoadPatterns(Some(read(IgnoreFileName).text)))
  {
    match read(IgnoreFileName)
    case Failed => None
    case NotFound => Some(([], None))
    case Content(text) =>
      Some(([Saved(IgnoreFileName, PathJoin(targetDir, IgnoreFileName), text)],
            Some(Gitignore.LoadPatterns(Some(text)))))
  }

  /** The run `pull` makes. */
  function PullTrace(targetDir: string, root: Listing, read: string -> Fetch): (r: Outcome)
    ensures read(IgnoreFileName).Failed? ==> r == Aborted([])
    ensures r.Aborted? ==> |r.events| <= 1
    ensures !read(IgnoreFileName).Failed? ==>
              (r.Finished? <==> WorkspaceFiles(root, Bootstrap(targetDir, read).value.1).Some?)
    ensures read(IgnoreFileName).Content? ==> |r.events| > 0 && r.events[0] == FetchEvent(targetDir, IgnoreFileName, read)
    ensures forall e <- r.events :: e.Saved? ==> read(Subject(e)) == Content(e.text) && e.local == PathJoin(targetDir, Subject(e))
  {
    match Bootstrap(targetDir, read)
    case None => Aborted([])
    case Some((start, handler)) =>
      match WorkspaceFiles(root, handler)
      case None => Aborted(start)
      case Some(files) => Finished(start + FetchEvents(targetDir, files, read))
  }

  /** `pull`: the ignore-file bootstrap, the listing, then one fetch per
      listed file in listing order; a failed fetch does not stop the loop. */
  method Pull(targetDir: string, root: Listing, read: string -> Fetch) returns (r: Outcome)
    ensures r == PullTrace(targetDir, root, read)
  {
    var events: seq<Event> := [];
    var handler: Handler := None;
    match read(IgnoreFileName) {
      case Failed =>
        return Aborted([]);
      case NotFound =>
      case Content(text) =>
        events := [Saved(IgnoreFileName, PathJoin(targetDir, IgnoreFileName), text)];
        handler := Some(Gitignore.LoadPatterns(Some(text)));
    }
    var listed := GetWorkspaceFiles(root, handler);
    if listed.None? {
      return Aborted(events);
    }
    var fetched := FetchAll(targetDir, listed.value, read);
    r := Finished(events + fetched);
  }

  /** The fetch loop: one event per file, in order; a failed fetch is
      recorded and the loop goes on. */
  method FetchAll(targetDir: string, files: seq<string>, read: string -> Fetch) returns (events: seq<Event>)
    ensures events == FetchEvents(targetDir, files, read)
  {
    events := [];
    var i := 0;
    while i < |files|
      invariant 0 <= i <= |files|
      invariant events == FetchEvents(targetDir, files[..i], read)
    {
      assert files[..i + 1] == files[..i] + [files[i]];
      events := events + [FetchEvent(targetDir, files[i], read)];
      i := i + 1;
    }
    assert files[..i] == files;
  }

  // ----- what a pull does -----

  /** Without an ignore file in the workspace nothing is filtered: the pull
      fetches every file of the workspace, and saves nothing before. */
  lemma NoIgnoreFileFiltersNothing(targetDir: string, root: Listing, read: string -> Fetch)
    requires read(IgnoreFileName) == NotFound
    requires WorkspaceFiles(root, None).Some?
    ensures PullTrace(targetDir, root, read)
         == Finished(FetchEvents(targetDir, WorkspaceFiles(root, None).value, read))
  {
    assert [] + FetchEvents(targetDir, WorkspaceFiles(root, None).value, read)
        == FetchEvents(targetDir, WorkspaceFiles(root, None).value, read);
  }

  /** With an ignore file, it is saved to the target before anything else,
      and no file its rules ignore is fetched. */
  lemma IgnoreFileSavedFirstAndApplied(targetDir: string, root: Listing, read: string -> Fetch, text: string)
    requires read(IgnoreFileName) == Content(text)
    ensures |PullTrace(targetDir, root, read).events| > 0
    ensures PullTrace(targetDir, root, read).events[0]
         == Saved(IgnoreFileName, PathJoin(targetDir, IgnoreFileName), text)
    ensures forall i :: 1 <= i < |PullTrace(targetDir, root, read).events| ==>
              !Gitignore.IsIgnored(Gitignore.LoadPatterns(Some(text)), Subject(PullTrace(targetDir, root, read).events[i]))
  {
    var h := Some(Gitignore.LoadPatterns(Some(text)));
    var r := PullTrace(targetDir, root, read);
    var start := [Saved(IgnoreFileName, PathJoin(targetDir, IgnoreFileName), text)];
    if WorkspaceFiles(root, h).Some? {
      var files := WorkspaceFiles(root, h).value;
      var walked := Walk(root, h).value;
      WalkKeepsNoIgnoredFile(root, h);
      forall i | 1 <= i < |r.events|
        ensures !Gitignore.IsIgnored(h.value, Subject(r.events[i]))
      {
        var f := files[i - 1];
        assert r.events[i] == FetchEvents(targetDir, files, read)[i - 1];
        assert f in multiset(Sort(walked));
        assert f in walked;
      }
    }
  }

  /** Every listed file is tried exactly once, in listing order, after the
      bootstrap; it is saved under the target directory exactly when its
      fetch succeeds. */
  lemma EachFileTriedOnce(targetDir: string, root: Listing, read: string -> Fetch)
    requires PullTrace(targetDir, root, read).Finished?
    ensures var start := Bootstrap(targetDir, read).value.0;
            var files := WorkspaceFiles(root, Bootstrap(targetDir, read).value.1).value;
            var events := PullTrace(targetDir, root, read).events;
            |events| == |start| + |files|
            && (forall i :: 0 <= i < |files| ==> Subject(events[|start| + i]) == files[i])
            && (forall i :: 0 <= i < |files| ==>
                  (events[|start| + i].Saved? <==> read(files[i]).Content?))
            && (forall i :: 0 <= i < |files| && events[|start| + i].Saved? ==>
                  events[|start| + i].local == PathJoin(targetDir, files[i]))
  {
  }

  /** A failed fetch affects only its own file: two runs of the fetch loop
      over the same files, whose reads differ on one file only, produce the
      same events except for that file's. */
  lemma FailureIsIsolated(targetDir: string, files: seq<string>, read: string -> Fetch, read': string -> Fetch, bad: string)
    requires forall f :: f != bad ==> read(f) == read'(f)
    ensures forall i :: 0 <= i < |files| && files[i] != bad ==>
              FetchEvents(targetDir, files, read)[i] == FetchEvents(targetDir, files, read')[i]
  {
  }

  /** The same for whole pulls: when the reads differ on one file other
      than the ignore file, the two pulls end alike, have as many events,
      and agree on every event about another file. */
  lemma FailureIsIsolatedInPull(targetDir: string, root: Listing, read: string -> Fetch, read': string -> Fetch,
                                bad: string)
    requires bad != IgnoreFileName
    requires forall f :: f != bad ==> read(f) == read'(f)
    ensures PullTrace(targetDir, root, read).Finished? == PullTrace(targetDir, root, read').Finished?
    ensures |PullTrace(targetDir, root, read).events| == |PullTrace(targetDir, root, read').events|
    ensures forall i :: 0 <= i < |PullTrace(targetDir, root, read).events|
                        && Subject(PullTrace(targetDir, root, read).events[i]) != bad
                        ==> PullTrace(targetDir, root, read).events[i] == PullTrace(targetDir, root, read').events[i]
  {
    assert read(IgnoreFileName) == read'(IgnoreFileName);
    var b := Bootstrap(targetDir, read);
    assert b == Bootstrap(targetDir, read');
    if b.Some? && WorkspaceFiles(root, b.value.1).Some? {
      EventsAfterIsolated(targetDir, b.value.0, WorkspaceFiles(root, b.value.1).value, read, read', bad);
    }
  }

  /** The fetch events after a common start agree on every file but `bad`. */
  lemma EventsAfterIsolated(targetDir: string, start: seq<Event>, files: seq<string>,
                            read: string -> Fetch, read': string -> Fetch, bad: string)
    requires forall f :: f != bad ==> read(f) == read'(f)
    ensures forall i :: 0 <= i < |start| + |files| && Subject((start + FetchEvents(targetDir, files, read))[i]) != bad
                        ==> (start + FetchEvents(targetDir, files, read))[i] == (start + FetchEvents(targetDir, files, read'))[i]
  {
    var es, es' := FetchEvents(targetDir, files, read), FetchEvents(targetDir, files, read');
    FailureIsIsolated(targetDir, files, read, read', bad);
    forall i | 0 <= i < |start| + |files| && Subject((start + es)[i]) != bad
      ensures (start + es)[i] == (start + es')[i]
    {
      if i >= |start| {
        assert (start + es)[i] == es[i - |start|];
        assert (start + es')[i] == es'[i - |start|];
      }
    }
  }

  /** When the listing raises, the pull stops after the bootstrap. */
  lemma FailedListingAborts(targetDir: string, root: Listing, read: string -> Fetch)
    requires read(IgnoreFileName) != Failed
    requires WorkspaceFiles(root, Bootstrap(targetDir, read).value.1).None?
    ensures PullTrace(targetDir, root, read) == Aborted(Bootstrap(targetDir, read).value.0)
  {
  }
}
