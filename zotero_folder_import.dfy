/**
 * The plugin's two classes. A `FolderScanner` is one scanner per directory;
 * its state (`path`, `name`, `files`, `folders`, `extensions`) is a `Node`
 * value, and `scan`, `selected` and `import` are methods that take a scanner
 * and return what it holds afterwards. `FolderImport` is the class that keeps
 * the progress status and drives one "Add Files from Folder" run. Each method
 * is proved against the value-level model of the same step.
 */
module ZoteroFolderImport {
  import opened Wrappers
  import opened Paths
  import opened Sorting
  import opened Store
  import opened Scanning
  import opened Importing

  // ----- FolderScanner ----------------------------------------------------

  /** `new FolderScanner(path, isRoot)`: nothing found yet; the root is unnamed, any other scanner is named by its base name. */
  function NewScanner(path: string, isRoot: bool): (r: Node)
    ensures r.path == path && r.files == [] && r.folders == [] && r.extensions == {}
    ensures isRoot ==> r.name == ""
    ensures !isRoot ==> r.name == Basename(path)
  {
    Node(path, if isRoot then "" else Basename(path), [], [], {})
  }

  /** The scanner made for an entry of a directory is named after that entry. */
  lemma ChildScannerName(path: string, entry: string)
    requires '/' !in entry
    ensures NewScanner(Join(path, entry), false).name == entry
  {
    BasenameOfJoin(path, entry);
    LastIndexOfSpec(entry, '/');
    assert LastIndexOf(entry, '/') == -1;
  }

  /** The scanners the enumeration creates for the directory entries `ds` of `path`, in order. */
  function NewChildren(path: string, ds: seq<Entry>): (r: seq<Node>)
    ensures |r| == |ds|
  {
    if ds == [] then []
    else NewChildren(path, ds[..|ds| - 1]) + [NewScanner(Join(path, ds[|ds| - 1].name), false)]
  }

  /** The `k`-th new scanner is the one for the `k`-th directory entry. */
  lemma {:induction false} NewChildrenAt(path: string, ds: seq<Entry>, k: nat)
    requires k < |ds|
    ensures NewChildren(path, ds)[k] == NewScanner(Join(path, ds[k].name), false)
    decreases |ds|
  {
    if k < |ds| - 1 {
      NewChildrenAt(path, ds[..|ds| - 1], k);
    }
  }

  lemma NewChildrenSnoc(path: string, ds: seq<Entry>, e: Entry)
    ensures NewChildren(path, ds + [e]) == NewChildren(path, ds) + [NewScanner(Join(path, e.name), false)]
  {
    assert (ds + [e])[..|ds|] == ds;
  }

  /**
   * The enumeration in `scan()`: a directory entry pushes a new scanner onto
   * `folders`, a file entry pushes its joined path onto `files` and adds its
   * lower-cased extension, when it has a non-empty one, to `extensions`. `ds`
   * are the directory entries, whose listings the children's scans read.
   */
  method Enumerate(path: string, es: seq<Entry>) returns (files: seq<string>, folders: seq<Node>, exts: set<string>, ds: seq<Entry>)
    ensures files == FilesOf(path, es)
    ensures ds == DirsOf(es) && folders == NewChildren(path, ds)
    ensures exts == OwnExtensions(es)
  {
    files, folders, exts, ds := [], [], {}, [];
    var i := 0;
    EntriesNone(path, es);
    while i < |es|
      invariant 0 <= i <= |es|
      invariant files == FilesOf(path, es[..i]) && exts == OwnExtensions(es[..i])
      invariant ds == DirsOf(es[..i]) && folders == NewChildren(path, ds)
    {
      var e := es[i];
      EntriesPrefix(path, es, i);
      if e.Dir? {
        NewChildrenSnoc(path, ds, e);
        folders := folders + [NewScanner(Join(path, e.name), false)];
        ds := ds + [e];
      } else {
        files := files + [Join(path, e.name)];
        var ext := Extension(e.name);
        if ext.Some? && ext.value != "" {
          exts := exts + {Lower(ext.value)};
        }
      }
      i := i + 1;
      assert files == FilesOf(path, es[..i]);
      assert ds == DirsOf(es[..i]);
    }
    assert es[..i] == es;
  }

  /** The loop that unions every child's `extensions` into the scanner's own. */
  method AddChildExtensions(exts: set<string>, kids: seq<Node>) returns (r: set<string>)
    ensures r == exts + FolderExtensions(kids)
  {
    r := exts;
    var k := 0;
    assert kids[..0] == [];
    while k < |kids|
      invariant 0 <= k <= |kids|
      invariant r == exts + FolderExtensions(kids[..k])
    {
      FolderExtensionsSnoc(kids[..k], kids[k]);
      assert kids[..k + 1] == kids[..k] + [kids[k]];
      r := r + kids[k].extensions;
      k := k + 1;
    }
    assert kids[..k] == kids;
  }

  /**
   * `scan()` on a scanner as the constructor left it: enumerate the
   * directory, scan every child, then add the children's extensions. It fails
   * when some directory of the subtree cannot be enumerated, and otherwise
   * yields the scanner `Scanned` describes.
   */
  method Scan(s: Node, listing: Listing) returns (r: Option<Node>)
    requires s.files == [] && s.folders == [] && s.extensions == {}
    decreases listing
    ensures r == Scanned(s.path, s.name, listing)
  {
    if listing.Unreadable? {
      return None;
    }
    var es := listing.entries;
    var files, folders, exts, ds := Enumerate(s.path, es);
    forall k | 0 <= k < |ds|
      ensures folders[k] == NewScanner(Join(s.path, ds[k].name), false)
    {
      NewChildrenAt(s.path, ds, k);
    }
    var kids := ScanChildren(s.path, es, ds, folders);
    if kids.None? {
      return None;
    }
    exts := AddChildExtensions(exts, kids.value);
    r := Some(s.(files := files, folders := kids.value, extensions := exts));
  }

  /** The children scanned so far in front of the scans still to come, failing when those fail. */
  function Prepend(kids: seq<Node>, rest: Option<seq<Node>>): (r: Option<seq<Node>>)
    ensures r.Some? <==> rest.Some?
    ensures r.Some? ==> r.value == kids + rest.value
  {
    if rest.None? then None else Some(kids + rest.value)
  }

  lemma PrependNothing(rest: Option<seq<Node>>)
    ensures Prepend([], rest) == rest
  {
    if rest.Some? {
      assert [] + rest.value == rest.value;
    }
  }

  lemma PrependAll(kids: seq<Node>)
    ensures Prepend(kids, Some([])) == Some(kids)
  {
    assert kids + [] == kids;
  }

  lemma PrependOne(kids: seq<Node>, c: Node, rest: Option<seq<Node>>)
    ensures Prepend(kids, Prepend([c], rest)) == Prepend(kids + [c], rest)
  {
    if rest.Some? {
      assert kids + ([c] + rest.value) == (kids + [c]) + rest.value;
    }
  }

  /** Scanning the entries from the `k`-th on: the `k`-th child, then the others. */
  lemma ScanDirsStep(path: string, es: seq<Entry>, ds: seq<Entry>, k: nat)
    requires forall d :: d in ds ==> d in es && d.Dir?
    requires k < |ds|
    ensures ScanChild(path, ds[k]).None? ==> ScanDirs(path, es, ds[k..]).None?
    ensures ScanChild(path, ds[k]).Some? ==>
      ScanDirs(path, es, ds[k..]) == Prepend([ScanChild(path, ds[k]).value], ScanDirs(path, es, ds[k + 1..]))
  {
    assert ds[k..][0] == ds[k];
    assert ds[k..][1..] == ds[k + 1..];
  }

  /** `Promise.all(this.folders.map(dir => dir.scan()))`, one child after the other, failing when one fails. */
  method ScanChildren(path: string, es: seq<Entry>, ds: seq<Entry>, folders: seq<Node>) returns (r: Option<seq<Node>>)
    requires forall d :: d in ds ==> d in es && d.Dir?
    requires |folders| == |ds|
    requires forall k :: 0 <= k < |ds| ==> folders[k] == NewScanner(Join(path, ds[k].name), false)
    decreases es
    ensures r == ScanDirs(path, es, ds)
  {
    var kids: seq<Node> := [];
    var k := 0;
    assert ds[0..] == ds;
    PrependNothing(ScanDirs(path, es, ds));
    while k < |folders|
      invariant 0 <= k <= |folders| == |ds|
      invariant ScanDirs(path, es, ds) == Prepend(kids, ScanDirs(path, es, ds[k..]))
    {
      var d := ds[k];
      assert d in ds;
      var child := Scan(folders[k], d.contents);
      assert child == ScanChild(path, d);
      ScanDirsStep(path, es, ds, k);
      if child.None? {
        return None;
      }
      PrependOne(kids, child.value, ScanDirs(path, es, ds[k + 1..]));
      kids := kids + [child.value];
      k := k + 1;
    }
    assert ds[k..] == [];
    PrependAll(kids);
    r := Some(kids);
  }

  /** `selected(extensions)`: how many files of the subtree have their raw extension in `filter`. */
  method Selected(n: Node, filter: set<string>) returns (count: nat)
    decreases n
    ensures count == SelectedCount(n, filter)
  {
    count := |Wanted(n.files, filter)|;
    WantedConcat(n.files, FolderFiles(n, 0), filter);
    var k := 0;
    while k < |n.folders|
      invariant 0 <= k <= |n.folders|
      invariant count + |Wanted(FolderFiles(n, k), filter)| == SelectedCount(n, filter)
    {
      var c := Selected(n.folders[k], filter);
      WantedConcat(AllFiles(n.folders[k]), FolderFiles(n, k + 1), filter);
      count := count + c;
      k := k + 1;
    }
  }

  /** The world `import` acts on: the library's collections and items, the `pdfs` array and `status.done`. */
  function Observed(store: Library, pdfs: PdfList, progress: FolderImport): (w: World)
    reads store, pdfs, progress
    ensures w.collections == store.collections && w.attachments == store.attachments
    ensures w.pdfs == pdfs.items && w.done == progress.status.done
  {
    World(store.collections, store.attachments, pdfs.items, progress.status.done)
  }

  /**
   * `import(params, collection, pdfs)`. A subtree with no selected extension
   * is skipped. Otherwise a named scanner finds or creates its collection,
   * sorts its files, attaches the selected ones, and imports each child under
   * its collection. The store, `pdfs` and the progress end as `ImportNode`
   * says; the scanner returned is the one with its files sorted.
   */
  method Import(n: Node, p: Params, collection: Option<nat>, pdfs: PdfList, store: Library, progress: FolderImport) returns (r: Node)
    modifies store, pdfs, progress
    decreases n, 1
    ensures r == AfterImport(n, p.extensions)
    ensures Observed(store, pdfs, progress) == ImportNode(n, p, collection, store.failing, old(Observed(store, pdfs, progress)))
    ensures progress.status.total == old(progress.status.total)
  {
    if !Overlaps(n.extensions, p.extensions) {
      return n;
    }
    var coll := FindOrCreate(n.name, p.libraryID, collection, store);
    var files := Sort(n.files);
    ImportFileList(files, p, coll, pdfs, store, progress);
    var kids := ImportChildren(n, p, coll, pdfs, store, progress);
    r := n.(files := files, folders := kids);
  }

  /** The collection a scanner's files go into: the first child of `parent` with its name, created when there is none; the root keeps `parent`. */
  method FindOrCreate(name: string, libraryID: int, parent: Option<nat>, store: Library) returns (coll: Option<nat>)
    modifies store
    ensures (coll, store.collections) == Reconcile(name, libraryID, parent, old(store.collections))
    ensures store.attachments == old(store.attachments)
  {
    coll := parent;
    if name != "" {
      var existing := FindChild(store.collections, parent, libraryID, name);
      if existing.Some? {
        coll := existing;
      } else {
        FindChildCreated(store.collections, parent, libraryID, name);
        var key := store.CreateCollection(name, libraryID, parent);
        coll := Some(key);
      }
    }
  }

  /** The loop over the sorted files: each one whose raw extension is selected is attached. */
  method ImportFileList(files: seq<string>, p: Params, coll: Option<nat>, pdfs: PdfList, store: Library, progress: FolderImport)
    modifies store, pdfs, progress
    ensures Observed(store, pdfs, progress) == ImportFiles(files, 0, p, coll, store.failing, old(Observed(store, pdfs, progress)))
    ensures progress.status.total == old(progress.status.total)
  {
    ghost var w0 := Observed(store, pdfs, progress);
    var i := 0;
    while i < |files|
      invariant 0 <= i <= |files|
      invariant ImportFiles(files, i, p, coll, store.failing, Observed(store, pdfs, progress)) == ImportFiles(files, 0, p, coll, store.failing, w0)
      invariant progress.status.total == old(progress.status.total)
    {
      ghost var before := Observed(store, pdfs, progress);
      if Wants(files[i], p.extensions) {
        AttachFile(files[i], p, coll, pdfs, store, progress);
      }
      assert Observed(store, pdfs, progress) == if Wants(files[i], p.extensions) then FileStep(files[i], p, coll, store.failing, before) else before;
      i := i + 1;
    }
  }

  /**
   * One selected file: linked, or copied unless it is a `.lnk` shortcut, a
   * copied PDF pushed onto `pdfs`; a throwing call adds nothing; the progress
   * is updated in every case.
   */
  method AttachFile(file: string, p: Params, coll: Option<nat>, pdfs: PdfList, store: Library, progress: FolderImport)
    modifies store, pdfs, progress
    ensures Observed(store, pdfs, progress) == FileStep(file, p, coll, store.failing, old(Observed(store, pdfs, progress)))
    ensures progress.status.total == old(progress.status.total)
  {
    if p.link {
      var _ := store.LinkFromFile(file, coll);
    } else if !EndsWith(file, ".lnk") {
      var item := store.ImportFromFile(file, p.libraryID, coll);
      if item.Some? && EndsWith(Lower(file), ".pdf") {
        pdfs.Push(item.value);
      }
    }
    progress.Update();
  }

  /** The loop `for (const folder of this.folders) await folder.import(...)`, under collection `coll`. */
  method ImportChildren(n: Node, p: Params, coll: Option<nat>, pdfs: PdfList, store: Library, progress: FolderImport) returns (kids: seq<Node>)
    modifies store, pdfs, progress
    decreases n, 0
    ensures |kids| == |n.folders|
    ensures forall j :: 0 <= j < |kids| ==> kids[j] == AfterImport(n.folders[j], p.extensions)
    ensures Observed(store, pdfs, progress) == ImportFolders(n, 0, p, coll, store.failing, old(Observed(store, pdfs, progress)))
    ensures progress.status.total == old(progress.status.total)
  {
    kids := [];
    var k := 0;
    while k < |n.folders|
      invariant 0 <= k <= |n.folders|
      invariant |kids| == k
      invariant forall j :: 0 <= j < k ==> kids[j] == AfterImport(n.folders[j], p.extensions)
      invariant ImportFolders(n, k, p, coll, store.failing, Observed(store, pdfs, progress))
             == ImportFolders(n, 0, p, coll, store.failing, old(Observed(store, pdfs, progress)))
      invariant progress.status.total == old(progress.status.total)
    {
      var kid := Import(n.folders[k], p, coll, pdfs, store, progress);
      kids := kids + [kid];
      k := k + 1;
    }
  }

  // ----- FolderImport -----------------------------------------------------

  /** `{ total, done }`: the number of files to import and the number handled so far. */
  datatype Status = Status(total: int, done: int)

  /** How an "Add Files from Folder" run ends. */
  datatype Outcome =
    | ScanFailed
    | NoExtensions
    | NothingChosen
    | Finished(pdfs: seq<nat>)

  /** The extensions left selected when the dialog keeps those in `keep`. */
  function Chosen(root: Node, keep: set<string>): (r: set<string>)
    ensures r <= root.extensions
    ensures forall e :: e in r <==> e in root.extensions && e in keep
  {
    root.extensions * keep
  }

  class FolderImport {
    var status: Status

    constructor ()
      ensures status == Status(0, 0)
    {
      status := Status(0, 0);
    }

    /** `update()`: one more file handled; the progress meter it drives is not modelled. */
    method Update()
      modifies this
      ensures status == old(status).(done := old(status).done + 1)
    {
      status := status.(done := status.done + 1);
    }

    /**
     * `addAttachmentsFromFolder()` once a folder is picked: scan it, stop when
     * no extension was found or the dialog leaves none selected, otherwise set
     * `status` to the selected count, import into the selected collection
     * and hand back the copied PDF items. Linking is used outside groups and
     * "My Publications". When it finishes, every selected file was counted
     * once: `status.done == status.total`.
     */
    method AddAttachmentsFromFolder(folder: string, listing: Listing, keep: set<string>, inGroup: bool, inPublications: bool,
                                    libraryID: int, selected: Option<nat>, store: Library) returns (outcome: Outcome)
      modifies this, store
      ensures Scanned(folder, "", listing).None? ==> outcome == ScanFailed
      ensures Scanned(folder, "", listing).Some? ==>
        var root := Scanned(folder, "", listing).value;
        && (root.extensions == {} ==> outcome == NoExtensions)
        && (root.extensions != {} && Chosen(root, keep) == {} ==> outcome == NothingChosen)
        && (root.extensions != {} && Chosen(root, keep) != {} ==> outcome.Finished?)
      ensures !outcome.Finished? ==>
        store.collections == old(store.collections) && store.attachments == old(store.attachments) && status == old(status)
      ensures outcome.Finished? ==>
        && Scanned(folder, "", listing).Some?
        && var root := Scanned(folder, "", listing).value;
           var p := Params(Chosen(root, keep), !inGroup && !inPublications, libraryID);
           && World(store.collections, store.attachments, outcome.pdfs, status.done)
                == ImportNode(root, p, selected, store.failing, World(old(store.collections), old(store.attachments), [], 0))
           && status.total == SelectedCount(root, p.extensions)
           && status.done == status.total
    {
      var scanned := Scan(NewScanner(folder, true), listing);
      if scanned.None? {
        return ScanFailed;
      }
      var root := scanned.value;
      if root.extensions == {} {
        return NoExtensions;
      }
      var p := Params(Chosen(root, keep), !inGroup && !inPublications, libraryID);
      if p.extensions == {} {
        return NothingChosen;
      }
      var pdfs := new PdfList();
      var total := Selected(root, p.extensions);
      status := Status(total, 0);
      ghost var w0 := World(store.collections, store.attachments, [], 0);
      var _ := Import(root, p, selected, pdfs, store, this);
      ScannedAggregated(folder, "", listing);
      ProgressReachesSelected(root, p, selected, store.failing, w0);
      outcome := Finished(pdfs.items);
    }
  }
}
