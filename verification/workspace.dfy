/** `PullHandler.get_workspace_path_structure` and
    `PullHandler.get_workspace_files`: discovering the files of a remote
    workspace one directory listing at a time, leaving out what the ignore
    handler rejects. */
module Workspace {
  import opened Options
  import opened Text
  import Gitignore

  /** One entry of a directory listing, with its path relative to the
      workspace root. A directory entry carries what the listing call returns
      for its path, so a workspace is a finite, acyclic tree. */
  datatype Entry =
    | FileEntry(file: string)
    | DirectoryEntry(directory: string, contents: Listing)

  /** What the listing call for one directory returns: its entries in the
      order the remote reports them, or `Unavailable` when the call raises. */
  datatype Listing = Listed(entries: seq<Entry>) | Unavailable

  /** The ignore handler handed to the listing functions: its patterns, or
      `None` when no handler is passed. */
  type Handler = Option<seq<string>>

  /** The source tests whether `entry.directory` is non-empty. */
  predicate IsDirectory(e: Entry) {
    e.DirectoryEntry? && e.directory != ""
  }

  /** The path the source takes from an entry: `entry.directory` for a
      directory, otherwise `entry.file` (empty when the entry has none). */
  function PathOf(e: Entry): string {
    if IsDirectory(e) then e.directory
    else if e.FileEntry? then e.file
    else ""
  }

  /** An entry is dropped when a handler is present and ignores its path. A
      directory's path is tested bare, with no `/` appended. */
  predicate Dropped(h: Handler, e: Entry) {
    h.Some? && Gitignore.IsIgnored(h.value, PathOf(e))
  }

  /** The two lists `get_workspace_path_structure` returns. */
  datatype Structure = Structure(files: seq<string>, directories: seq<Entry>)

  /** One listing split into files and directories, each in listing order,
      without the dropped entries. */
  function Partition(es: seq<Entry>, h: Handler): (r: Structure)
    ensures |r.files| + |r.directories| <= |es|
    ensures h.None? ==> |r.files| + |r.directories| == |es|
    decreases |es|
  {
    if |es| == 0 then Structure([], [])
    else
      var e := es[0];
      var rest := Partition(es[1..], h);
      if Dropped(h, e) then rest
      else if IsDirectory(e) then Structure(rest.files, [e] + rest.directories)
      else Structure([PathOf(e)] + rest.files, rest.directories)
  }

  /** Partitioning works entry by entry: listing order is kept in both lists. */
  lemma {:induction false} PartitionAppend(a: seq<Entry>, b: seq<Entry>, h: Handler)
    ensures Partition(a + b, h).files == Partition(a, h).files + Partition(b, h).files
    ensures Partition(a + b, h).directories == Partition(a, h).directories + Partition(b, h).directories
    decreases |a|
  {
    if |a| == 0 {
      assert a + b == b;
    } else {
      assert (a + b)[0] == a[0];
      assert (a + b)[1..] == a[1..] + b;
      PartitionAppend(a[1..], b, h);
      var e := a[0];
      var x, y := Partition(a[1..], h), Partition(b, h);
      if !Dropped(h, e) && IsDirectory(e) {
        assert [e] + (x.directories + y.directories) == ([e] + x.directories) + y.directories;
      } else if !Dropped(h, e) {
        assert [PathOf(e)] + (x.files + y.files) == ([PathOf(e)] + x.files) + y.files;
      }
    }
  }

  /** Only kept entries come out: directories that the handler does not
      ignore, and files whose paths it does not ignore. */
  lemma {:induction false} PartitionKeepsOnlyKept(es: seq<Entry>, h: Handler)
    ensures forall d <- Partition(es, h).directories :: d in es && IsDirectory(d) && !Dropped(h, d)
    ensures forall f <- Partition(es, h).files :: h.None? || !Gitignore.IsIgnored(h.value, f)
    decreases |es|
  {
    if |es| > 0 {
      PartitionKeepsOnlyKept(es[1..], h);
    }
  }

  /** A single entry goes to `directories` when its `directory` is non-empty
      and to `files` otherwise, unless the handler drops it. */
  lemma PartitionSingle(e: Entry, h: Handler)
    ensures Dropped(h, e) ==> Partition([e], h) == Structure([], [])
    ensures !Dropped(h, e) && IsDirectory(e) ==> Partition([e], h) == Structure([], [e])
    ensures !Dropped(h, e) && !IsDirectory(e) ==> Partition([e], h) == Structure([PathOf(e)], [])
  {
    assert [e][1..] == [];
  }

  /** `get_workspace_path_structure` for one directory: the listing call,
      then the partition. `None` when the call raises. */
  function PathStructure(l: Listing, h: Handler): (r: Option<Structure>)
    ensures r.None? <==> l.Unavailable?
    ensures r.Some? ==> |r.value.files| + |r.value.directories| <= |l.entries|
    ensures r.Some? && h.None? ==> |r.value.files| + |r.value.directories| == |l.entries|
    ensures r.Some? ==> forall d <- r.value.directories :: d in l.entries && IsDirectory(d) && !Dropped(h, d)
    ensures r.Some? ==> forall f <- r.value.files :: h.None? || !Gitignore.IsIgnored(h.value, f)
  {
    match l
    case Unavailable => None
    case Listed(es) =>
      PartitionKeepsOnlyKept(es, h);
      Some(Partition(es, h))
  }

  // ----- the reference: a depth-first walk -----

  /** Both parts, or `None` when either is missing. */
  function Concat(a: Option<seq<string>>, b: Option<seq<string>>): Option<seq<string>> {
    if a.Some? && b.Some? then Some(a.value + b.value) else None
  }

  lemma ConcatAssociative(a: Option<seq<string>>, b: Option<seq<string>>, c: Option<seq<string>>)
    ensures Concat(Concat(a, b), c) == Concat(a, Concat(b, c))
  {
    if a.Some? && b.Some? && c.Some? {
      assert (a.value + b.value) + c.value == a.value + (b.value + c.value);
    }
  }

  /** Every file below a listing that is not dropped and not under a dropped
      directory, depth first; `None` when some listing that has to be read
      raises. */
  function Walk(l: Listing, h: Handler): Option<seq<string>> {
    match l
    case Unavailable => None
    case Listed(es) => WalkEntries(es, h)
  }

  function WalkEntries(es: seq<Entry>, h: Handler): Option<seq<string>> {
    if |es| == 0 then Some([])
    else Concat(WalkEntry(es[0], h), WalkEntries(es[1..], h))
  }

  function WalkEntry(e: Entry, h: Handler): Option<seq<string>> {
    if Dropped(h, e) then Some([])
    else if IsDirectory(e) then Walk(e.contents, h)
    else Some([PathOf(e)])
  }

  /** The walk of consecutive stretches of entries. */
  lemma {:induction false} WalkEntriesAppend(a: seq<Entry>, b: seq<Entry>, h: Handler)
    ensures WalkEntries(a + b, h) == Concat(WalkEntries(a, h), WalkEntries(b, h))
    decreases |a|
  {
    if |a| == 0 {
      assert a + b == b;
      if WalkEntries(b, h).Some? {
        assert [] + WalkEntries(b, h).value == WalkEntries(b, h).value;
      }
    } else {
      assert (a + b)[0] == a[0];
      assert (a + b)[1..] == a[1..] + b;
      WalkEntriesAppend(a[1..], b, h);
      ConcatAssociative(WalkEntry(a[0], h), WalkEntries(a[1..], h), WalkEntries(b, h));
    }
  }

  /** What `get_workspace_files` returns: the walk, sorted. */
  function WorkspaceFiles(root: Listing, h: Handler): Option<seq<string>> {
    match Walk(root, h)
    case None => None
    case Some(fs) => Some(Sort(fs))
  }

  // ----- the worklist -----

  /** What lies below a worklist item: the walk of its listing. */
  function Below(d: Entry, h: Handler): Option<seq<string>> {
    match d
    case FileEntry(_) => Some([])
    case DirectoryEntry(_, c) => Walk(c, h)
  }

  /** The walks below the directories of a worklist, one after another. */
  function Forest(queue: seq<Entry>, h: Handler): Option<seq<string>> {
    if |queue| == 0 then Some([])
    else Concat(Below(queue[0], h), Forest(queue[1..], h))
  }

  lemma {:induction false} ForestAppend(a: seq<Entry>, b: seq<Entry>, h: Handler)
    ensures Forest(a + b, h) == Concat(Forest(a, h), Forest(b, h))
    decreases |a|
  {
    if |a| == 0 {
      assert a + b == b;
      if Forest(b, h).Some? {
        assert [] + Forest(b, h).value == Forest(b, h).value;
      }
    } else {
      assert (a + b)[0] == a[0];
      assert (a + b)[1..] == a[1..] + b;
      ForestAppend(a[1..], b, h);
      ConcatAssociative(Below(a[0], h), Forest(a[1..], h), Forest(b, h));
    }
  }

  /** The files of an optional list, counted with multiplicity. */
  function Bag(o: Option<seq<string>>): Option<multiset<string>> {
    match o
    case None => None
    case Some(s) => Some(multiset(s))
  }

  /** Both counts added, or `None` when either is missing. */
  function Plus(a: Option<multiset<string>>, b: Option<multiset<string>>): Option<multiset<string>> {
    if a.Some? && b.Some? then Some(a.value + b.value) else None
  }

  lemma BagConcat(a: Option<seq<string>>, b: Option<seq<string>>)
    ensures Bag(Concat(a, b)) == Plus(Bag(a), Bag(b))
  {
    if a.Some? && b.Some? {
      assert multiset(a.value + b.value) == multiset(a.value) + multiset(b.value);
    }
  }

  lemma PlusRegroup(a: Option<multiset<string>>, b: Option<multiset<string>>, c: Option<multiset<string>>)
    ensures Plus(a, Plus(b, c)) == Plus(Plus(a, b), c)
    ensures Plus(a, Plus(b, c)) == Plus(b, Plus(a, c))
  {
    if a.Some? && b.Some? && c.Some? {
      assert a.value + (b.value + c.value) == (a.value + b.value) + c.value;
      assert a.value + (b.value + c.value) == b.value + (a.value + c.value);
    }
  }

  /** The files of a listing are its own kept files plus everything under its
      kept directories. */
  lemma {:induction false} PartitionAccounts(es: seq<Entry>, h: Handler)
    ensures Bag(WalkEntries(es, h))
         == Plus(Some(multiset(Partition(es, h).files)), Bag(Forest(Partition(es, h).directories, h)))
    decreases |es|
  {
    if |es| == 0 {
      assert Partition(es, h) == Structure([], []);
      assert WalkEntries(es, h) == Some([]) && Forest([], h) == Some([]);
      var none: seq<string> := [];
      assert multiset(none) + multiset(none) == multiset(none);
    } else {
      PartitionAccounts(es[1..], h);
      var e := es[0];
      var tail := WalkEntries(es[1..], h);
      assert WalkEntries(es, h) == Concat(WalkEntry(e, h), tail);
      BagConcat(WalkEntry(e, h), tail);
      if Dropped(h, e) {
        DroppedAccounts(es, h);
      } else if IsDirectory(e) {
        DirectoryAccounts(es, h);
      } else {
        FileAccounts(es, h);
      }
    }
  }

  /** The step of `PartitionAccounts` for a dropped first entry. */
  lemma DroppedAccounts(es: seq<Entry>, h: Handler)
    requires |es| > 0 && Dropped(h, es[0])
    requires Bag(WalkEntries(es[1..], h))
          == Plus(Some(multiset(Partition(es[1..], h).files)), Bag(Forest(Partition(es[1..], h).directories, h)))
    ensures Bag(WalkEntries(es, h))
         == Plus(Some(multiset(Partition(es, h).files)), Bag(Forest(Partition(es, h).directories, h)))
  {
    var none: seq<string> := [];
    var tail := WalkEntries(es[1..], h);
    assert Partition(es, h) == Partition(es[1..], h);
    assert WalkEntry(es[0], h) == Some(none);
    assert WalkEntries(es, h) == Concat(Some(none), tail);
    if tail.Some? {
      assert none + tail.value == tail.value;
    }
  }

  /** The step of `PartitionAccounts` for a kept directory first. */
  lemma DirectoryAccounts(es: seq<Entry>, h: Handler)
    requires |es| > 0 && !Dropped(h, es[0]) && IsDirectory(es[0])
    requires Bag(WalkEntries(es[1..], h))
          == Plus(Some(multiset(Partition(es[1..], h).files)), Bag(Forest(Partition(es[1..], h).directories, h)))
    ensures Bag(WalkEntries(es, h))
         == Plus(Some(multiset(Partition(es, h).files)), Bag(Forest(Partition(es, h).directories, h)))
  {
    var e := es[0];
    var rest := Partition(es[1..], h);
    var dirs := [e] + rest.directories;
    assert Partition(es, h) == Structure(rest.files, dirs);
    assert dirs[0] == e && dirs[1..] == rest.directories;
    var below := Forest(rest.directories, h);
    assert Forest(dirs, h) == Concat(Walk(e.contents, h), below);
    BagConcat(Walk(e.contents, h), below);
    BagConcat(WalkEntry(e, h), WalkEntries(es[1..], h));
    PlusRegroup(Bag(WalkEntry(e, h)), Some(multiset(rest.files)), Bag(below));
  }

  /** The step of `PartitionAccounts` for a kept file first. */
  lemma FileAccounts(es: seq<Entry>, h: Handler)
    requires |es| > 0 && !Dropped(h, es[0]) && !IsDirectory(es[0])
    requires Bag(WalkEntries(es[1..], h))
          == Plus(Some(multiset(Partition(es[1..], h).files)), Bag(Forest(Partition(es[1..], h).directories, h)))
    ensures Bag(WalkEntries(es, h))
         == Plus(Some(multiset(Partition(es, h).files)), Bag(Forest(Partition(es, h).directories, h)))
  {
    var e := es[0];
    var rest := Partition(es[1..], h);
    var files := [PathOf(e)] + rest.files;
    assert Partition(es, h) == Structure(files, rest.directories);
    assert WalkEntry(e, h) == Some([PathOf(e)]);
    assert multiset(files) == multiset{PathOf(e)} + multiset(rest.files);
    BagConcat(WalkEntry(e, h), WalkEntries(es[1..], h));
    PlusRegroup(Bag(WalkEntry(e, h)), Some(multiset(rest.files)), Bag(Forest(rest.directories, h)));
  }

  /** Size of a subtree: the worklist's termination measure. */
  function Size(l: Listing): nat {
    match l
    case Unavailable => 1
    case Listed(es) => 1 + Total(es)
  }

  function Total(es: seq<Entry>): nat {
    if |es| == 0 then 0 else EntrySize(es[0]) + Total(es[1..])
  }

  function EntrySize(e: Entry): nat {
    match e
    case FileEntry(_) => 1
    case DirectoryEntry(_, c) => 1 + Size(c)
  }

  lemma {:induction false} TotalAppend(a: seq<Entry>, b: seq<Entry>)
    ensures Total(a + b) == Total(a) + Total(b)
    decreases |a|
  {
    if |a| == 0 {
      assert a + b == b;
    } else {
      assert (a + b)[0] == a[0];
      assert (a + b)[1..] == a[1..] + b;
      TotalAppend(a[1..], b);
    }
  }

  /** The directories a listing hands on weigh no more than the listing. */
  lemma {:induction false} PartitionLighter(es: seq<Entry>, h: Handler)
    ensures Total(Partition(es, h).directories) <= Total(es)
    decreases |es|
  {
    if |es| > 0 {
      PartitionLighter(es[1..], h);
      var rest := Partition(es[1..], h);
      if !Dropped(h, es[0]) && IsDirectory(es[0]) {
        assert ([es[0]] + rest.directories)[1..] == rest.directories;
      }
    }
  }

  /** Listing the directory at the head of the worklist moves its own files
      into the result and its subdirectories to the back of the worklist,
      without changing what is still to be found. */
  lemma QueueStep(files: seq<string>, queue: seq<Entry>, h: Handler)
    requires |queue| > 0 && queue[0].DirectoryEntry? && queue[0].contents.Listed?
    ensures Plus(Some(multiset(files + Partition(queue[0].contents.entries, h).files)),
                 Bag(Forest(queue[1..] + Partition(queue[0].contents.entries, h).directories, h)))
         == Plus(Some(multiset(files)), Bag(Forest(queue, h)))
  {
    var d := queue[0];
    var found := Partition(d.contents.entries, h);
    var rest := Bag(Forest(queue[1..], h));
    var deeper := Bag(Forest(found.directories, h));
    PartitionAccounts(d.contents.entries, h);
    assert Below(d, h) == WalkEntries(d.contents.entries, h);
    assert Forest(queue, h) == Concat(Below(d, h), Forest(queue[1..], h));
    BagConcat(Below(d, h), Forest(queue[1..], h));
    ForestAppend(queue[1..], found.directories, h);
    BagConcat(Forest(queue[1..], h), Forest(found.directories, h));
    assert multiset(files + found.files) == multiset(files) + multiset(found.files);
    PlusRegroup(Some(multiset(found.files)), deeper, rest);
    PlusRegroup(Some(multiset(files)), Some(multiset(found.files)), Plus(rest, deeper));
    PlusRegroup(Some(multiset(files)), Plus(Some(multiset(found.files)), deeper), rest);
    if rest.Some? && deeper.Some? {
      assert rest.value + deeper.value == deeper.value + rest.value;
    }
  }

  /** A worklist whose head cannot be listed accounts for nothing. */
  lemma QueueFails(queue: seq<Entry>, h: Handler)
    requires |queue| > 0 && queue[0].DirectoryEntry? && queue[0].contents.Unavailable?
    ensures Forest(queue, h) == None
  {
  }

  /** `get_workspace_files`: lists the root, then takes directories off the
      front of a worklist, lists each once, adds its files and appends its
      subdirectories, until the worklist is empty; the files come back
      sorted. Any listing call that raises ends the discovery. */
  method GetWorkspaceFiles(root: Listing, h: Handler) returns (r: Option<seq<string>>)
    ensures r == WorkspaceFiles(root, h)
    ensures r.Some? ==> Sorted(r.value)
  {
    var first := PathStructure(root, h);
    if first.None? {
      return None;
    }
    PartitionAccounts(root.entries, h);
    PartitionKeepsOnlyKept(root.entries, h);
    var files := first.value.files;
    var queue := first.value.directories;
    while |queue| > 0
      invariant forall q <- queue :: q.DirectoryEntry?
      invariant Plus(Some(multiset(files)), Bag(Forest(queue, h))) == Bag(Walk(root, h))
      decreases Total(queue)
    {
      var d := queue[0];
      var s := PathStructure(d.contents, h);
      if s.None? {
        QueueFails(queue, h);
        return None;
      }
      var found := s.value;
      QueueStep(files, queue, h);
      PartitionKeepsOnlyKept(d.contents.entries, h);
      PartitionLighter(d.contents.entries, h);
      TotalAppend(queue[1..], found.directories);
      assert found == Partition(d.contents.entries, h);
      assert d.contents.Listed?;
      assert Total(queue) == EntrySize(d) + Total(queue[1..]);
      assert EntrySize(d) == 2 + Total(d.contents.entries);
      files := files + found.files;
      queue := queue[1..] + found.directories;
    }
    var walked := Walk(root, h).value;
    assert Forest(queue, h) == Some([]);
    var none: seq<string> := [];
    assert multiset(files) + multiset(none) == multiset(files);
    assert multiset(files) == multiset(walked);
    SortedUnique(Sort(files), Sort(walked));
    r := Some(Sort(files));
  }

  // ----- what discovery returns -----

  /** Every discovered file is one whose path the handler does not ignore. */
  lemma {:induction false} WalkKeepsNoIgnoredFile(l: Listing, h: Handler)
    requires h.Some? && Walk(l, h).Some?
    ensures forall f <- Walk(l, h).value :: !Gitignore.IsIgnored(h.value, f)
    decreases l, 1
  {
    if l.Listed? {
      WalkEntriesKeepNoIgnoredFile(l.entries, h);
    }
  }

  lemma {:induction false} WalkEntriesKeepNoIgnoredFile(es: seq<Entry>, h: Handler)
    requires h.Some? && WalkEntries(es, h).Some?
    ensures forall f <- WalkEntries(es, h).value :: !Gitignore.IsIgnored(h.value, f)
    decreases es, 0
  {
    if |es| > 0 {
      var e := es[0];
      if !Dropped(h, e) && IsDirectory(e) {
        WalkKeepsNoIgnoredFile(e.contents, h);
      }
      WalkEntriesKeepNoIgnoredFile(es[1..], h);
    }
  }

  /** A directory the handler ignores is never listed: whatever lies below
      it, even a listing that would raise, changes nothing. */
  lemma IgnoredDirectoryNeverListed(path: string, below: Listing, rest: seq<Entry>, h: Handler)
    requires path != "" && h.Some? && Gitignore.IsIgnored(h.value, path)
    ensures Walk(Listed([DirectoryEntry(path, below)] + rest), h) == Walk(Listed(rest), h)
  {
    var es := [DirectoryEntry(path, below)] + rest;
    assert es[0] == DirectoryEntry(path, below) && es[1..] == rest;
    assert Dropped(h, es[0]);
    assert WalkEntry(es[0], h) == Some([]);
    var tail := WalkEntries(rest, h);
    if tail.Some? {
      assert [] + tail.value == tail.value;
    }
  }

  /** The order in which the remote reports a directory's entries does not
      change what discovery returns. */
  lemma ListingOrderIrrelevant(a: seq<Entry>, b: seq<Entry>, h: Handler)
    requires multiset(a) == multiset(b)
    ensures WorkspaceFiles(Listed(a), h) == WorkspaceFiles(Listed(b), h)
  {
    WalkEntriesPermutation(a, b, h);
    if WalkEntries(a, h).Some? {
      SortedUnique(Sort(WalkEntries(a, h).value), Sort(WalkEntries(b, h).value));
    }
  }

  lemma {:induction false} WalkEntriesPermutation(a: seq<Entry>, b: seq<Entry>, h: Handler)
    requires multiset(a) == multiset(b)
    ensures Bag(WalkEntries(a, h)) == Bag(WalkEntries(b, h))
    decreases |a|
  {
    if |a| == 0 {
      assert |b| == |multiset(b)| == 0;
    } else {
      var x := a[0];
      assert x in multiset(b);
      var j :| 0 <= j < |b| && b[j] == x;
      var front, back := b[..j], b[j + 1..];
      RemoveAt(a, b, j);
      WalkEntriesPermutation(a[1..], front + back, h);
      assert b == front + b[j..] && b[j..][0] == x && b[j..][1..] == back;
      WalkEntriesAppend(front, b[j..], h);
      WalkEntriesAppend(front, back, h);
      var wx, wf, wb := WalkEntry(x, h), WalkEntries(front, h), WalkEntries(back, h);
      assert WalkEntries(a, h) == Concat(wx, WalkEntries(a[1..], h));
      assert WalkEntries(b[j..], h) == Concat(wx, wb);
      BagConcat(wx, WalkEntries(a[1..], h));
      BagConcat(wx, wb);
      BagConcat(wf, Concat(wx, wb));
      BagConcat(wf, wb);
      PlusRegroup(Bag(wx), Bag(wf), Bag(wb));
    }
  }

  /** Taking the first entry off `a` and the same entry off `b` keeps the two
      permutations of each other. */
  lemma RemoveAt(a: seq<Entry>, b: seq<Entry>, j: int)
    requires multiset(a) == multiset(b) && |a| > 0 && 0 <= j < |b| && b[j] == a[0]
    ensures multiset(a[1..]) == multiset(b[..j] + b[j + 1..])
  {
    var x := a[0];
    assert a == [x] + a[1..];
    assert multiset(a) == multiset{x} + multiset(a[1..]);
    assert multiset(a[1..]) == multiset(a) - multiset{x};
    assert b == b[..j] + [x] + b[j + 1..];
    assert multiset(b) == multiset(b[..j]) + multiset{x} + multiset(b[j + 1..]);
    assert multiset(b[..j] + b[j + 1..]) == multiset(b[..j]) + multiset(b[j + 1..]);
    assert multiset(b[..j] + b[j + 1..]) == multiset(b) - multiset{x};
  }
}
