/**
 * The scan phase as values: the directory tree the scanner enumerates, the
 * mirror it builds (one `Node` per `FolderScanner`), what `scan` computes, the
 * aggregation invariant, and the count `selected` returns.
 */
module Scanning {
  import opened Wrappers
  import opened Paths

  /** What `OS.File.DirectoryIterator` yields for one entry: its name and whether it is a directory. */
  datatype Entry = File(name: string) | Dir(name: string, contents: Listing)

  /** A directory's listing, or a directory whose enumeration fails. */
  datatype Listing = Readable(entries: seq<Entry>) | Unreadable

  /** The state of one `FolderScanner`: `path`, `name`, `files`, `folders`, `extensions`. */
  datatype Node = Node(path: string, name: string, files: seq<string>, folders: seq<Node>, extensions: set<string>)

  /** The key a file contributes to `extensions`: its extension, lower-cased, unless there is none or it is empty. */
  function ExtKey(file: string): (r: Option<string>)
    ensures r.Some? ==> r.value != "" && IsLower(r.value)
  {
    match Extension(file)
    case None => None
    case Some(x) => if x == "" then None else LowerIsLower(x); Some(Lower(x))
  }

  /** `join(path, name)` for every file entry, in enumeration order. */
  function FilesOf(path: string, es: seq<Entry>): seq<string>
  {
    if es == [] then []
    else
      var last := es[|es| - 1];
      FilesOf(path, es[..|es| - 1]) + (if last.File? then [Join(path, last.name)] else [])
  }

  /** The directory entries, in enumeration order. */
  function DirsOf(es: seq<Entry>): (r: seq<Entry>)
    ensures forall d :: d in r ==> d in es && d.Dir?
  {
    if es == [] then []
    else
      var last := es[|es| - 1];
      DirsOf(es[..|es| - 1]) + (if last.Dir? then [last] else [])
  }

  /** The keys the file entries of one listing contribute. */
  function OwnExtensions(es: seq<Entry>): set<string>
  {
    set e | e in es && e.File? && ExtKey(e.name).Some? :: ExtKey(e.name).value
  }

  /** The keys a sequence of file paths contributes. */
  function FileExtensions(files: seq<string>): set<string>
  {
    set f | f in files && ExtKey(f).Some? :: ExtKey(f).value
  }

  /** The union of the children's `extensions`. */
  function FolderExtensions(ns: seq<Node>): set<string>
  {
    set n, x | n in ns && x in n.extensions :: x
  }

  /**
   * What `new FolderScanner(path, ...)` followed by `scan()` leaves behind, or
   * nothing when the enumeration of some directory in the subtree fails.
   */
  function Scanned(path: string, name: string, l: Listing): Option<Node>
    decreases l, 0
  {
    match l
    case Unreadable => None
    case Readable(es) =>
      match ScanDirs(path, es, DirsOf(es))
      case None => None
      case Some(kids) => Some(Node(path, name, FilesOf(path, es), kids, OwnExtensions(es) + FolderExtensions(kids)))
  }

  /** The child scanner for directory entry `d`: path `join(path, d.name)`, named by its base name. */
  function ScanChild(path: string, d: Entry): Option<Node>
    requires d.Dir?
    decreases d, 0
  {
    var p := Join(path, d.name);
    Scanned(p, Basename(p), d.contents)
  }

  /** The scans of the directory entries `ds` of listing `es`, failing when one fails. */
  function ScanDirs(path: string, es: seq<Entry>, ds: seq<Entry>): Option<seq<Node>>
    requires forall d :: d in ds ==> d in es && d.Dir?
    decreases es, |ds|
  {
    if ds == [] then Some([])
    else
      match ScanChild(path, ds[0])
      case None => None
      case Some(n) =>
        match ScanDirs(path, es, ds[1..])
        case None => None
        case Some(rest) => Some([n] + rest)
  }

  /** `ScanDirs` succeeds exactly when every child scan does, and then yields them in order. */
  lemma {:induction false} ScanDirsAt(path: string, es: seq<Entry>, ds: seq<Entry>)
    requires forall d :: d in ds ==> d in es && d.Dir?
    ensures ScanDirs(path, es, ds).Some? <==> forall k :: 0 <= k < |ds| ==> ScanChild(path, ds[k]).Some?
    ensures ScanDirs(path, es, ds).Some? ==>
      && |ScanDirs(path, es, ds).value| == |ds|
      && forall k :: 0 <= k < |ds| ==> Some(ScanDirs(path, es, ds).value[k]) == ScanChild(path, ds[k])
    decreases |ds|
  {
    if ds != [] {
      var tail := ds[1..];
      ScanDirsAt(path, es, tail);
      var c := ScanChild(path, ds[0]);
      var rest := ScanDirs(path, es, tail);
      assert ScanDirs(path, es, ds) == if c.None? || rest.None? then None else Some([c.value] + rest.value);
      assert forall k :: 0 < k < |ds| ==> tail[k - 1] == ds[k];
      if rest.Some? && c.Some? {
        var r := [c.value] + rest.value;
        assert forall k :: 0 < k < |ds| ==> r[k] == rest.value[k - 1];
      } else if c.Some? {
        var k :| 0 <= k < |tail| && ScanChild(path, tail[k]).None?;
        assert ScanChild(path, ds[k + 1]).None?;
      }
    }
  }

  /**
   * The shape of a finished scan: the given name, one file path per file entry
   * in enumeration order, and one child per directory entry, each the scan of
   * `join(path, entry)` named by the entry's base name.
   */
  lemma ScannedShape(path: string, name: string, l: Listing)
    requires Scanned(path, name, l).Some?
    ensures l.Readable?
    ensures var n := Scanned(path, name, l).value;
      && n.path == path && n.name == name
      && n.files == FilesOf(path, l.entries)
      && |n.folders| == |DirsOf(l.entries)|
      && forall k :: 0 <= k < |n.folders| ==>
           && Some(n.folders[k]) == ScanChild(path, DirsOf(l.entries)[k])
           && n.folders[k].path == Join(path, DirsOf(l.entries)[k].name)
           && n.folders[k].name == Basename(DirsOf(l.entries)[k].name)
  {
    var es := l.entries;
    var ds := DirsOf(es);
    ScanDirsAt(path, es, ds);
    var n := Scanned(path, name, l).value;
    forall k | 0 <= k < |n.folders|
      ensures n.folders[k].path == Join(path, ds[k].name)
      ensures n.folders[k].name == Basename(ds[k].name)
    {
      BasenameOfJoin(path, ds[k].name);
    }
  }

  /**
   * The aggregation invariant at every node: `extensions` holds exactly the keys
   * of the node's own files and of its children's `extensions`.
   */
  predicate Aggregated(n: Node)
    decreases n
  {
    && n.extensions == FileExtensions(n.files) + FolderExtensions(n.folders)
    && forall k :: 0 <= k < |n.folders| ==> Aggregated(n.folders[k])
  }

  lemma OwnExtensionsSnoc(init: seq<Entry>, last: Entry)
    ensures OwnExtensions(init + [last]) ==
      OwnExtensions(init) + (if last.File? && ExtKey(last.name).Some? then {ExtKey(last.name).value} else {})
  {
    var es := init + [last];
    var rhs := OwnExtensions(init) + (if last.File? && ExtKey(last.name).Some? then {ExtKey(last.name).value} else {});
    forall x | x in OwnExtensions(es) ensures x in rhs {
      var e :| e in es && e.File? && ExtKey(e.name).Some? && x == ExtKey(e.name).value;
      assert e in init || e == last;
    }
    forall x | x in rhs ensures x in OwnExtensions(es) {
      if x in OwnExtensions(init) {
        var e :| e in init && e.File? && ExtKey(e.name).Some? && x == ExtKey(e.name).value;
        assert e in es;
      } else {
        assert last in es;
      }
    }
  }

  /** Nothing enumerated yet: no files, no directories, no keys. */
  lemma EntriesNone(path: string, es: seq<Entry>)
    ensures FilesOf(path, es[..0]) == [] && DirsOf(es[..0]) == [] && OwnExtensions(es[..0]) == {}
  {
    assert es[..0] == [];
  }

  /** One more entry of a listing, as the enumeration meets it. */
  lemma EntriesPrefix(path: string, es: seq<Entry>, i: nat)
    requires i < |es|
    ensures FilesOf(path, es[..i + 1]) == FilesOf(path, es[..i]) + (if es[i].File? then [Join(path, es[i].name)] else [])
    ensures DirsOf(es[..i + 1]) == DirsOf(es[..i]) + (if es[i].Dir? then [es[i]] else [])
    ensures OwnExtensions(es[..i + 1]) ==
      OwnExtensions(es[..i]) + (if es[i].File? && ExtKey(es[i].name).Some? then {ExtKey(es[i].name).value} else {})
  {
    assert es[..i + 1][..i] == es[..i];
    assert es[..i + 1] == es[..i] + [es[i]];
    OwnExtensionsSnoc(es[..i], es[i]);
  }

  lemma FileExtensionsSnoc(init: seq<string>, last: string)
    ensures FileExtensions(init + [last]) ==
      FileExtensions(init) + (if ExtKey(last).Some? then {ExtKey(last).value} else {})
  {
    var fs := init + [last];
    forall f | f in fs ensures f in init || f == last {}
  }

  /** Taking keys from entry names or from the joined paths gives the same set. */
  lemma {:induction false} OwnExtensionsOfFiles(path: string, es: seq<Entry>)
    ensures OwnExtensions(es) == FileExtensions(FilesOf(path, es))
  {
    if es != [] {
      var init := es[..|es| - 1];
      var last := es[|es| - 1];
      OwnExtensionsOfFiles(path, init);
      assert es == init + [last];
      OwnExtensionsSnoc(init, last);
      if last.File? {
        ExtensionOfJoin(path, last.name);
        assert ExtKey(Join(path, last.name)) == ExtKey(last.name);
        FileExtensionsSnoc(FilesOf(path, init), Join(path, last.name));
      } else {
        assert FilesOf(path, es) == FilesOf(path, init);
      }
    }
  }

  /** Every tree `scan` builds satisfies the aggregation invariant. */
  lemma {:induction false} ScannedAggregated(path: string, name: string, l: Listing)
    requires Scanned(path, name, l).Some?
    ensures Aggregated(Scanned(path, name, l).value)
    decreases l
  {
    var es := l.entries;
    var ds := DirsOf(es);
    var n := Scanned(path, name, l).value;
    ScanDirsAt(path, es, ds);
    OwnExtensionsOfFiles(path, es);
    forall k | 0 <= k < |n.folders|
      ensures Aggregated(n.folders[k])
    {
      var d := ds[k];
      assert d in es;
      var p := Join(path, d.name);
      ScannedAggregated(p, Basename(p), d.contents);
    }
  }

  /** Every file path of the subtree: the node's own, then each child's, in `folders` order. */
  function AllFiles(n: Node): seq<string>
    decreases n, |n.folders| + 1
  {
    n.files + FolderFiles(n, 0)
  }

  /** The files of the children from the `k`-th on. */
  function FolderFiles(n: Node, k: nat): seq<string>
    requires k <= |n.folders|
    decreases n, |n.folders| - k
  {
    if k == |n.folders| then [] else AllFiles(n.folders[k]) + FolderFiles(n, k + 1)
  }

  lemma FileExtensionsConcat(a: seq<string>, b: seq<string>)
    ensures FileExtensions(a + b) == FileExtensions(a) + FileExtensions(b)
  {
    forall f | f in a + b ensures f in a || f in b {}
  }

  lemma FolderExtensionsSnoc(ns: seq<Node>, m: Node)
    ensures FolderExtensions(ns + [m]) == FolderExtensions(ns) + m.extensions
  {
    forall n | n in ns + [m] ensures n in ns || n == m {}
    forall x | x in m.extensions ensures x in FolderExtensions(ns + [m]) {
      assert m in ns + [m];
    }
    forall x | x in FolderExtensions(ns) ensures x in FolderExtensions(ns + [m]) {
      var n :| n in ns && x in n.extensions;
      assert n in ns + [m];
    }
  }

  lemma FolderExtensionsCons(m: Node, ns: seq<Node>)
    ensures FolderExtensions([m] + ns) == m.extensions + FolderExtensions(ns)
  {
    forall n | n in [m] + ns ensures n == m || n in ns {}
    forall x | x in m.extensions ensures x in FolderExtensions([m] + ns) {
      assert m in [m] + ns;
    }
    forall x | x in FolderExtensions(ns) ensures x in FolderExtensions([m] + ns) {
      var n :| n in ns && x in n.extensions;
      assert n in [m] + ns;
    }
  }

  /** A node's `extensions` is exactly the set of keys of every file anywhere below it. */
  lemma {:induction false} ExtensionsOfSubtree(n: Node)
    requires Aggregated(n)
    ensures n.extensions == FileExtensions(AllFiles(n))
    decreases n, |n.folders| + 1
  {
    FolderExtensionsOfSubtree(n, 0);
    assert n.folders[0..] == n.folders;
    FileExtensionsConcat(n.files, FolderFiles(n, 0));
  }

  lemma {:induction false} FolderExtensionsOfSubtree(n: Node, k: nat)
    requires Aggregated(n) && k <= |n.folders|
    ensures FolderExtensions(n.folders[k..]) == FileExtensions(FolderFiles(n, k))
    decreases n, |n.folders| - k
  {
    if k < |n.folders| {
      var m := n.folders[k];
      var later := n.folders[k + 1..];
      assert FolderExtensions(n.folders[k..]) == m.extensions + FolderExtensions(later) by {
        assert n.folders[k..] == [m] + later;
        FolderExtensionsCons(m, later);
      }
      assert m.extensions == FileExtensions(AllFiles(m)) by {
        ExtensionsOfSubtree(m);
      }
      assert FolderExtensions(later) == FileExtensions(FolderFiles(n, k + 1)) by {
        FolderExtensionsOfSubtree(n, k + 1);
      }
      assert FileExtensions(FolderFiles(n, k)) == FileExtensions(AllFiles(m)) + FileExtensions(FolderFiles(n, k + 1)) by {
        FileExtensionsConcat(AllFiles(m), FolderFiles(n, k + 1));
      }
    } else {
      assert n.folders[k..] == [];
    }
  }

  /** Every key in an aggregated tree is non-empty and lower case. */
  lemma ExtensionsAreKeys(n: Node)
    requires Aggregated(n)
    ensures forall e :: e in n.extensions ==> e != "" && IsLower(e)
  {
    ExtensionsOfSubtree(n);
  }

  /** A child's `extensions` is contained in its parent's. */
  lemma ChildExtensionsContained(n: Node, k: nat)
    requires Aggregated(n) && k < |n.folders|
    ensures n.folders[k].extensions <= n.extensions
  {
    assert n.folders[k] in n.folders;
  }

  /** `params.extensions.has(this.extension(f))`: the raw extension, not lower-cased, is looked up. */
  predicate Wants(f: string, filter: set<string>)
  {
    Extension(f).Some? && Extension(f).value in filter
  }

  /** `files.filter(f => extensions.has(this.extension(f)))`. */
  function Wanted(fs: seq<string>, filter: set<string>): seq<string>
  {
    if fs == [] then []
    else Wanted(fs[..|fs| - 1], filter) + (if Wants(fs[|fs| - 1], filter) then [fs[|fs| - 1]] else [])
  }

  lemma {:induction false} WantedConcat(a: seq<string>, b: seq<string>, filter: set<string>)
    ensures Wanted(a + b, filter) == Wanted(a, filter) + Wanted(b, filter)
    decreases |b|
  {
    if b != [] {
      var b' := b[..|b| - 1];
      assert a + b == (a + b') + [b[|b| - 1]];
      assert (a + b)[..|a + b| - 1] == a + b';
      WantedConcat(a, b', filter);
    } else {
      assert a + b == a;
    }
  }

  /** The file the filter keeps occur as often as in the input; the others not at all. */
  lemma {:induction false} WantedMultiset(fs: seq<string>, filter: set<string>)
    ensures forall x :: multiset(Wanted(fs, filter))[x] == if Wants(x, filter) then multiset(fs)[x] else 0
  {
    if fs != [] {
      var init := fs[..|fs| - 1];
      WantedMultiset(init, filter);
      assert fs == init + [fs[|fs| - 1]];
    }
  }

  /** Filtering rearrangements of one sequence gives rearrangements of one another. */
  lemma WantedPermutation(a: seq<string>, b: seq<string>, filter: set<string>)
    requires multiset(a) == multiset(b)
    ensures multiset(Wanted(a, filter)) == multiset(Wanted(b, filter))
  {
    WantedMultiset(a, filter);
    WantedMultiset(b, filter);
  }

  /** The number `selected(filter)` returns: the files anywhere in the subtree that the filter keeps. */
  function SelectedCount(n: Node, filter: set<string>): nat
  {
    |Wanted(AllFiles(n), filter)|
  }

  /** With a filter of keys, a file the filter keeps has its key in every ancestor's `extensions`. */
  lemma WantedFileHasKey(n: Node, f: string, filter: set<string>)
    requires Aggregated(n)
    requires forall e :: e in filter ==> e != "" && IsLower(e)
    requires f in AllFiles(n) && Wants(f, filter)
    ensures Extension(f).value in n.extensions
  {
    ExtensionsOfSubtree(n);
    LowerIsLower(Extension(f).value);
    assert ExtKey(f) == Some(Extension(f).value);
  }
}
