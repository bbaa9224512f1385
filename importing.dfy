/**
 * The import phase as values: what one `FolderScanner.import` call does to the
 * collection store, the attachment store, the `pdfs` array and `status.done`,
 * and the properties of that walk.
 */
module Importing {
  import opened Wrappers
  import opened Paths
  import opened Sorting
  import opened Store
  import opened Scanning

  /** `params`: the selected extensions, link or copy mode, and the target library. */
  datatype Params = Params(extensions: set<string>, link: bool, libraryID: int)

  /** Everything the walk changes: collections, attachment items, `pdfs` and `status.done`. */
  datatype World = World(collections: seq<Collection>, attachments: seq<Attachment>, pdfs: seq<nat>, done: int)

  /**
   * The pruning test: some extension of the subtree is selected. The source
   * tests the truthiness of the first selected key `find` meets, so the two
   * tests agree whenever the empty string is not a key, as it never is in a
   * scanned tree (`ExtensionsAreKeys`).
   */
  predicate Overlaps(exts: set<string>, filter: set<string>)
  {
    exists e :: e in exts && e in filter && e != ""
  }

  /**
   * Collection reconciliation: the collection a named node's files and children
   * go into (the first same-named child of `parent`, or a new one), with the
   * collections afterwards; the unnamed root keeps `parent`.
   */
  function Reconcile(name: string, libraryID: int, parent: Option<nat>, cols: seq<Collection>): (r: (Option<nat>, seq<Collection>))
    ensures name == "" ==> r == (parent, cols)
    ensures cols <= r.1 && |r.1| <= |cols| + 1
    ensures name != "" ==> r.0.Some? && FindChild(r.1, parent, libraryID, name) == r.0
    ensures r.1 != cols ==> FindChild(cols, parent, libraryID, name).None? && r.1 == cols + [Collection(name, libraryID, parent)]
  {
    if name == "" then (parent, cols)
    else
      match FindChild(cols, parent, libraryID, name)
      case Some(c) => (Some(c), cols)
      case None => FindChildCreated(cols, parent, libraryID, name); (Some(|cols|), cols + [Collection(name, libraryID, parent)])
  }

  /**
   * One file that passed the filter: linked, or copied unless it is a `.lnk`
   * shortcut; a copied item whose path ends in `.pdf` in any case is pushed onto
   * `pdfs`; a throwing call changes nothing; `update()` runs in every case.
   */
  function FileStep(file: string, p: Params, coll: Option<nat>, failing: set<string>, w: World): World
  {
    var w' :=
      if p.link then
        if file in failing then w else w.(attachments := w.attachments + [Linked(file, coll)])
      else if EndsWith(file, ".lnk") || file in failing then w
      else w.(attachments := w.attachments + [Imported(file, p.libraryID, coll)],
              pdfs := if EndsWith(Lower(file), ".pdf") then w.pdfs + [|w.attachments|] else w.pdfs);
    w'.(done := w'.done + 1)
  }

  /** The loop over the node's sorted files, from the `i`-th on. */
  function ImportFiles(fs: seq<string>, i: nat, p: Params, coll: Option<nat>, failing: set<string>, w: World): World
    requires i <= |fs|
    decreases |fs| - i
  {
    if i == |fs| then w
    else ImportFiles(fs, i + 1, p, coll, failing, if Wants(fs[i], p.extensions) then FileStep(fs[i], p, coll, failing, w) else w)
  }

  /** `import(params, collection, pdfs)` on the node `n`, with `failing` the files whose attach call throws. */
  function ImportNode(n: Node, p: Params, parent: Option<nat>, failing: set<string>, w: World): World
    decreases n, |n.folders| + 1
  {
    if !Overlaps(n.extensions, p.extensions) then w
    else
      var (coll, cols) := Reconcile(n.name, p.libraryID, parent, w.collections);
      ImportFolders(n, 0, p, coll, failing, ImportFiles(Sort(n.files), 0, p, coll, failing, w.(collections := cols)))
  }

  /** The loop over the children, from the `k`-th on, under collection `coll`. */
  function ImportFolders(n: Node, k: nat, p: Params, coll: Option<nat>, failing: set<string>, w: World): World
    requires k <= |n.folders|
    decreases n, |n.folders| - k
  {
    if k == |n.folders| then w
    else ImportFolders(n, k + 1, p, coll, failing, ImportNode(n.folders[k], p, coll, failing, w))
  }

  /** The files the walk hands to the attach step, in order: own files sorted, then each child's. */
  function Walk(n: Node, filter: set<string>): seq<string>
    decreases n, |n.folders| + 1
  {
    if !Overlaps(n.extensions, filter) then [] else Wanted(Sort(n.files), filter) + WalkFolders(n, 0, filter)
  }

  function WalkFolders(n: Node, k: nat, filter: set<string>): seq<string>
    requires k <= |n.folders|
    decreases n, |n.folders| - k
  {
    if k == |n.folders| then [] else Walk(n.folders[k], filter) + WalkFolders(n, k + 1, filter)
  }

  /** The tree after an import: `this.files.sort()` has run in every node that was not pruned. */
  function AfterImport(n: Node, filter: set<string>): (r: Node)
    ensures r.path == n.path && r.name == n.name && r.extensions == n.extensions
    ensures |r.folders| == |n.folders|
    decreases n
  {
    if !Overlaps(n.extensions, filter) then n
    else n.(files := Sort(n.files),
            folders := seq(|n.folders|, k requires 0 <= k < |n.folders| => AfterImport(n.folders[k], filter)))
  }

  // ----- What a walk adds -------------------------------------------------

  predicate IsPdfImport(a: Attachment)
  {
    a.Imported? && EndsWith(Lower(a.file), ".pdf")
  }

  /** The keys of the copied PDF items among `added`, whose first item has key `base`. */
  function PdfKeys(added: seq<Attachment>, base: nat): seq<nat>
  {
    if added == [] then []
    else PdfKeys(added[..|added| - 1], base) + (if IsPdfImport(added[|added| - 1]) then [base + |added| - 1] else [])
  }

  function FilesOfItems(items: seq<Attachment>): (r: seq<string>)
    ensures |r| == |items|
  {
    if items == [] then [] else FilesOfItems(items[..|items| - 1]) + [items[|items| - 1].file]
  }

  /** Whether handling a filtered file adds an item: the call does not throw and a shortcut is not skipped. */
  predicate Lands(f: string, p: Params, failing: set<string>)
  {
    f !in failing && (p.link || !EndsWith(f, ".lnk"))
  }

  function Landed(fs: seq<string>, p: Params, failing: set<string>): seq<string>
  {
    if fs == [] then [] else Landed(fs[..|fs| - 1], p, failing) + (if Lands(fs[|fs| - 1], p, failing) then [fs[|fs| - 1]] else [])
  }

  /** The items `added` for the handled files: one per landing file, in order, of the mode's kind. */
  predicate Adds(added: seq<Attachment>, p: Params, failing: set<string>, handled: seq<string>)
  {
    && FilesOfItems(added) == Landed(handled, p, failing)
    && forall a :: a in added ==> (a.Linked? <==> p.link) && (a.Imported? ==> a.libraryID == p.libraryID)
  }

  /**
   * `w'` is `w` after the walk handled the files `handled`, in that order:
   * collections and items only appended, one item per landing file, the PDF
   * items pushed onto `pdfs`, and one progress update per handled file.
   */
  predicate Extends(w: World, w': World, p: Params, failing: set<string>, handled: seq<string>)
  {
    && w.collections <= w'.collections
    && w.attachments <= w'.attachments
    && Adds(w'.attachments[|w.attachments|..], p, failing, handled)
    && w'.pdfs == w.pdfs + PdfKeys(w'.attachments[|w.attachments|..], |w.attachments|)
    && w'.done == w.done + |handled|
  }

  lemma {:induction false} PdfKeysConcat(a: seq<Attachment>, b: seq<Attachment>, base: nat)
    ensures PdfKeys(a + b, base) == PdfKeys(a, base) + PdfKeys(b, base + |a|)
    decreases |b|
  {
    if b == [] {
      assert a + b == a;
    } else {
      var b' := b[..|b| - 1];
      assert (a + b)[..|a + b| - 1] == a + b';
      PdfKeysConcat(a, b', base);
    }
  }

  lemma {:induction false} FilesOfItemsConcat(a: seq<Attachment>, b: seq<Attachment>)
    ensures FilesOfItems(a + b) == FilesOfItems(a) + FilesOfItems(b)
    decreases |b|
  {
    if b == [] {
      assert a + b == a;
    } else {
      var b' := b[..|b| - 1];
      assert (a + b)[..|a + b| - 1] == a + b';
      FilesOfItemsConcat(a, b');
    }
  }

  lemma {:induction false} LandedConcat(a: seq<string>, b: seq<string>, p: Params, failing: set<string>)
    ensures Landed(a + b, p, failing) == Landed(a, p, failing) + Landed(b, p, failing)
    decreases |b|
  {
    if b == [] {
      assert a + b == a;
    } else {
      var b' := b[..|b| - 1];
      assert (a + b)[..|a + b| - 1] == a + b';
      LandedConcat(a, b', p, failing);
    }
  }

  lemma ExtendsRefl(w: World, p: Params, failing: set<string>)
    ensures Extends(w, w, p, failing, [])
  {
    assert w.attachments[|w.attachments|..] == [];
  }

  lemma AddsConcat(a1: seq<Attachment>, a2: seq<Attachment>, p: Params, failing: set<string>, h1: seq<string>, h2: seq<string>)
    requires Adds(a1, p, failing, h1) && Adds(a2, p, failing, h2)
    ensures Adds(a1 + a2, p, failing, h1 + h2)
  {
    FilesOfItemsConcat(a1, a2);
    LandedConcat(h1, h2, p, failing);
    assert forall a :: a in a1 + a2 ==> a in a1 || a in a2;
  }

  /** The items two consecutive steps appended to a store that only grows. */
  lemma SegmentsConcat(x: seq<Attachment>, y: seq<Attachment>, z: seq<Attachment>)
    requires x <= y <= z
    ensures z[|x|..] == y[|x|..] + z[|y|..]
  {
    assert y == x + y[|x|..];
    assert z == y + z[|y|..];
  }

  /** The `pdfs` keys of two consecutive steps compose. */
  lemma PdfKeysTrans(k1: seq<nat>, k2: seq<nat>, k3: seq<nat>, d12: seq<Attachment>, d23: seq<Attachment>, base: nat)
    requires k2 == k1 + PdfKeys(d12, base)
    requires k3 == k2 + PdfKeys(d23, base + |d12|)
    ensures k3 == k1 + PdfKeys(d12 + d23, base)
  {
    PdfKeysConcat(d12, d23, base);
  }

  lemma ExtendsTrans(w1: World, w2: World, w3: World, p: Params, failing: set<string>, h1: seq<string>, h2: seq<string>)
    requires Extends(w1, w2, p, failing, h1) && Extends(w2, w3, p, failing, h2)
    ensures Extends(w1, w3, p, failing, h1 + h2)
  {
    var d12, d23 := w2.attachments[|w1.attachments|..], w3.attachments[|w2.attachments|..];
    SegmentsConcat(w1.attachments, w2.attachments, w3.attachments);
    AddsConcat(d12, d23, p, failing, h1, h2);
    assert |w1.attachments| + |d12| == |w2.attachments|;
    PdfKeysTrans(w1.pdfs, w2.pdfs, w3.pdfs, d12, d23, |w1.attachments|);
  }

  /** What a single item contributes to the accounting. */
  lemma SingleItem(a: Attachment, base: nat)
    ensures FilesOfItems([a]) == [a.file]
    ensures PdfKeys([a], base) == if IsPdfImport(a) then [base] else []
  {
    assert [a][..0] == [];
  }

  lemma FileStepExtends(f: string, p: Params, coll: Option<nat>, failing: set<string>, w: World)
    requires Wants(f, p.extensions)
    ensures Extends(w, FileStep(f, p, coll, failing, w), p, failing, [f])
  {
    var w' := FileStep(f, p, coll, failing, w);
    assert [f][..0] == [];
    assert Landed([f], p, failing) == if Lands(f, p, failing) then [f] else [];
    if Lands(f, p, failing) {
      var a := if p.link then Linked(f, coll) else Imported(f, p.libraryID, coll);
      assert w'.attachments == w.attachments + [a];
      assert w'.attachments[|w.attachments|..] == [a];
      SingleItem(a, |w.attachments|);
    } else {
      assert w'.attachments[|w.attachments|..] == [];
    }
  }

  lemma ReconcileExtends(name: string, p: Params, parent: Option<nat>, failing: set<string>, w: World)
    ensures Extends(w, w.(collections := Reconcile(name, p.libraryID, parent, w.collections).1), p, failing, [])
  {
    ExtendsRefl(w, p, failing);
  }

  lemma WantedSingle(x: string, filter: set<string>)
    ensures Wanted([x], filter) == if Wants(x, filter) then [x] else []
  {
    assert [x][..0] == [];
  }

  lemma WantedSuffix(fs: seq<string>, i: nat, filter: set<string>)
    requires i < |fs|
    ensures Wanted(fs[i..], filter) == Wanted([fs[i]], filter) + Wanted(fs[i + 1..], filter)
  {
    assert fs[i..] == [fs[i]] + fs[i + 1..];
    WantedConcat([fs[i]], fs[i + 1..], filter);
  }

  /** One turn of the file loop: the file is handled exactly when it passes the filter. */
  lemma FileTurnExtends(f: string, p: Params, coll: Option<nat>, failing: set<string>, w: World)
    ensures Extends(w, if Wants(f, p.extensions) then FileStep(f, p, coll, failing, w) else w,
                    p, failing, Wanted([f], p.extensions))
  {
    WantedSingle(f, p.extensions);
    if Wants(f, p.extensions) {
      FileStepExtends(f, p, coll, failing, w);
    } else {
      ExtendsRefl(w, p, failing);
    }
  }

  lemma {:induction false} ImportFilesExtends(fs: seq<string>, i: nat, p: Params, coll: Option<nat>, failing: set<string>, w: World)
    requires i <= |fs|
    ensures Extends(w, ImportFiles(fs, i, p, coll, failing, w), p, failing, Wanted(fs[i..], p.extensions))
    decreases |fs| - i
  {
    if i == |fs| {
      assert fs[i..] == [];
      ExtendsRefl(w, p, failing);
    } else {
      var w1 := if Wants(fs[i], p.extensions) then FileStep(fs[i], p, coll, failing, w) else w;
      FileTurnExtends(fs[i], p, coll, failing, w);
      ImportFilesExtends(fs, i + 1, p, coll, failing, w1);
      ExtendsTrans(w, w1, ImportFiles(fs, i + 1, p, coll, failing, w1), p, failing,
                   Wanted([fs[i]], p.extensions), Wanted(fs[i + 1..], p.extensions));
      WantedSuffix(fs, i, p.extensions);
    }
  }

  /** The effect of one `import` call, stated by the files it hands to the attach step. */
  lemma {:induction false} ImportNodeExtends(n: Node, p: Params, parent: Option<nat>, failing: set<string>, w: World)
    ensures Extends(w, ImportNode(n, p, parent, failing, w), p, failing, Walk(n, p.extensions))
    decreases n, |n.folders| + 1
  {
    if !Overlaps(n.extensions, p.extensions) {
      ExtendsRefl(w, p, failing);
    } else {
      var (coll, cols) := Reconcile(n.name, p.libraryID, parent, w.collections);
      var w1 := w.(collections := cols);
      var fs := Sort(n.files);
      var w2 := ImportFiles(fs, 0, p, coll, failing, w1);
      ReconcileExtends(n.name, p, parent, failing, w);
      ImportFilesExtends(fs, 0, p, coll, failing, w1);
      assert fs[0..] == fs;
      ImportFoldersExtends(n, 0, p, coll, failing, w2);
      ExtendsTrans(w, w1, w2, p, failing, [], Wanted(fs, p.extensions));
      assert [] + Wanted(fs, p.extensions) == Wanted(fs, p.extensions);
      ExtendsTrans(w, w2, ImportFolders(n, 0, p, coll, failing, w2), p, failing, Wanted(fs, p.extensions), WalkFolders(n, 0, p.extensions));
    }
  }

  lemma {:induction false} ImportFoldersExtends(n: Node, k: nat, p: Params, coll: Option<nat>, failing: set<string>, w: World)
    requires k <= |n.folders|
    ensures Extends(w, ImportFolders(n, k, p, coll, failing, w), p, failing, WalkFolders(n, k, p.extensions))
    decreases n, |n.folders| - k
  {
    if k == |n.folders| {
      ExtendsRefl(w, p, failing);
    } else {
      var w1 := ImportNode(n.folders[k], p, coll, failing, w);
      ImportNodeExtends(n.folders[k], p, coll, failing, w);
      ImportFoldersExtends(n, k + 1, p, coll, failing, w1);
      ExtendsTrans(w, w1, ImportFolders(n, k + 1, p, coll, failing, w1), p, failing,
                   Walk(n.folders[k], p.extensions), WalkFolders(n, k + 1, p.extensions));
    }
  }

  // ----- Properties of the walk -------------------------------------------

  /** Pruning: a subtree without a selected extension is left alone entirely. */
  lemma PruneIsNoop(n: Node, p: Params, parent: Option<nat>, failing: set<string>, w: World)
    requires !Overlaps(n.extensions, p.extensions)
    ensures ImportNode(n, p, parent, failing, w) == w
    ensures Walk(n, p.extensions) == []
  {
  }

  /**
   * Pruning is sound for a filter of extension keys: a subtree it skips holds
   * no file the filter would have kept.
   */
  lemma PruneIsSound(n: Node, filter: set<string>)
    requires Aggregated(n)
    requires forall e :: e in filter ==> e != "" && IsLower(e)
    ensures !Overlaps(n.extensions, filter) ==> Wanted(AllFiles(n), filter) == []
  {
    var ws := Wanted(AllFiles(n), filter);
    if ws != [] {
      var f := ws[0];
      WantedMultiset(AllFiles(n), filter);
      assert f in multiset(ws);
      WantedFileHasKey(n, f, filter);
      assert Extension(f).value in n.extensions && Extension(f).value in filter;
    }
  }

  /** Every file the filter keeps anywhere in the subtree is handed to the attach step exactly once. */
  lemma {:induction false} WalkIsSelected(n: Node, filter: set<string>)
    requires Aggregated(n)
    requires forall e :: e in filter ==> e != "" && IsLower(e)
    ensures multiset(Walk(n, filter)) == multiset(Wanted(AllFiles(n), filter))
    decreases n, |n.folders| + 1
  {
    if !Overlaps(n.extensions, filter) {
      PruneIsSound(n, filter);
    } else {
      WantedPermutation(Sort(n.files), n.files, filter);
      WalkFoldersIsSelected(n, 0, filter);
      WantedConcat(n.files, FolderFiles(n, 0), filter);
    }
  }

  lemma {:induction false} WalkFoldersIsSelected(n: Node, k: nat, filter: set<string>)
    requires Aggregated(n) && k <= |n.folders|
    requires forall e :: e in filter ==> e != "" && IsLower(e)
    ensures multiset(WalkFolders(n, k, filter)) == multiset(Wanted(FolderFiles(n, k), filter))
    decreases n, |n.folders| - k
  {
    if k < |n.folders| {
      WalkIsSelected(n.folders[k], filter);
      WalkFoldersIsSelected(n, k + 1, filter);
      WantedConcat(AllFiles(n.folders[k]), FolderFiles(n, k + 1), filter);
    }
  }

  /** `update()` runs once per file handed to the attach step, whatever the outcome of the call. */
  lemma ProgressCountsWalk(n: Node, p: Params, parent: Option<nat>, failing: set<string>, w: World)
    ensures ImportNode(n, p, parent, failing, w).done == w.done + |Walk(n, p.extensions)|
  {
    ImportNodeExtends(n, p, parent, failing, w);
  }

  /**
   * With a filter drawn from the root's extensions, the walk's progress updates
   * add up to `selected(filter)`, so `done` ends at `total`.
   */
  lemma ProgressReachesSelected(n: Node, p: Params, parent: Option<nat>, failing: set<string>, w: World)
    requires Aggregated(n)
    requires p.extensions <= n.extensions
    ensures ImportNode(n, p, parent, failing, w).done == w.done + SelectedCount(n, p.extensions)
  {
    ExtensionsAreKeys(n);
    WalkIsSelected(n, p.extensions);
    ProgressCountsWalk(n, p, parent, failing, w);
    assert |multiset(Walk(n, p.extensions))| == |multiset(Wanted(AllFiles(n), p.extensions))|;
  }

  /** Items only go where a filtered file was handled: none at all when nothing is selected. */
  lemma NothingSelectedNothingAttached(n: Node, p: Params, parent: Option<nat>, failing: set<string>, w: World)
    requires Aggregated(n)
    requires forall e :: e in p.extensions ==> e != "" && IsLower(e)
    requires SelectedCount(n, p.extensions) == 0
    ensures ImportNode(n, p, parent, failing, w).attachments == w.attachments
    ensures ImportNode(n, p, parent, failing, w).pdfs == w.pdfs
    ensures ImportNode(n, p, parent, failing, w).done == w.done
  {
    WalkIsSelected(n, p.extensions);
    ImportNodeExtends(n, p, parent, failing, w);
    var w' := ImportNode(n, p, parent, failing, w);
    assert |multiset(Walk(n, p.extensions))| == 0;
    assert Walk(n, p.extensions) == [];
    var added := w'.attachments[|w.attachments|..];
    assert |added| == |FilesOfItems(added)| == 0;
    assert w'.attachments == w.attachments + added;
  }

  lemma {:induction false} LandedMembers(fs: seq<string>, p: Params, failing: set<string>)
    ensures forall f :: f in Landed(fs, p, failing) ==> f in fs && Lands(f, p, failing)
  {
    if fs != [] {
      LandedMembers(fs[..|fs| - 1], p, failing);
    }
  }

  lemma {:induction false} FilesOfItemsMembers(items: seq<Attachment>)
    ensures forall a :: a in items ==> a.file in FilesOfItems(items)
  {
    if items != [] {
      FilesOfItemsMembers(items[..|items| - 1]);
      assert items == items[..|items| - 1] + [items[|items| - 1]];
    }
  }

  /**
   * The shortcut policy and the mode: every item added is for a file whose
   * attach call did not throw, of the mode's kind and library, and in copy mode
   * never a `.lnk` shortcut.
   */
  lemma AttachModePolicy(n: Node, p: Params, parent: Option<nat>, failing: set<string>, w: World)
    ensures w.attachments <= ImportNode(n, p, parent, failing, w).attachments
    ensures var added := ImportNode(n, p, parent, failing, w).attachments[|w.attachments|..];
      forall a :: a in added ==>
        && a.file !in failing
        && (a.Linked? <==> p.link)
        && (a.Imported? ==> a.libraryID == p.libraryID)
        && (!p.link ==> !EndsWith(a.file, ".lnk"))
  {
    ImportNodeExtends(n, p, parent, failing, w);
    var added := ImportNode(n, p, parent, failing, w).attachments[|w.attachments|..];
    FilesOfItemsMembers(added);
    LandedMembers(Walk(n, p.extensions), p, failing);
  }

  // ----- Where the items go -----------------------------------------------

  /** Each item's file with the collection it was added to, in order. */
  function Placements(items: seq<Attachment>): (r: seq<(string, Option<nat>)>)
    ensures |r| == |items|
  {
    if items == [] then [] else Placements(items[..|items| - 1]) + [(items[|items| - 1].file, items[|items| - 1].collection)]
  }

  /** The files `fs`, each in collection `c`. */
  function PlacedIn(fs: seq<string>, c: Option<nat>): seq<(string, Option<nat>)>
  {
    seq(|fs|, k requires 0 <= k < |fs| => (fs[k], c))
  }

  /**
   * Where an import of `n` puts its items, read off the collections `cols` it
   * leaves behind: the landing files of every entered node, sorted, in that
   * node's same-named collection under its parent's (the root's in `parent`
   * itself), each node's before its children's.
   */
  function Placed(n: Node, p: Params, failing: set<string>, parent: Option<nat>, cols: seq<Collection>): seq<(string, Option<nat>)>
    decreases n, |n.folders| + 1
  {
    if !Overlaps(n.extensions, p.extensions) then []
    else
      var c := if n.name == "" then parent else FindChild(cols, parent, p.libraryID, n.name);
      PlacedIn(Landed(Wanted(Sort(n.files), p.extensions), p, failing), c) + PlacedFolders(n, 0, p, failing, c, cols)
  }

  function PlacedFolders(n: Node, k: nat, p: Params, failing: set<string>, c: Option<nat>, cols: seq<Collection>): seq<(string, Option<nat>)>
    requires k <= |n.folders|
    decreases n, |n.folders| - k
  {
    if k == |n.folders| then [] else Placed(n.folders[k], p, failing, c, cols) + PlacedFolders(n, k + 1, p, failing, c, cols)
  }

  lemma {:induction false} PlacementsConcat(a: seq<Attachment>, b: seq<Attachment>)
    ensures Placements(a + b) == Placements(a) + Placements(b)
    decreases |b|
  {
    if b == [] {
      assert a + b == a;
    } else {
      var b' := b[..|b| - 1];
      assert (a + b)[..|a + b| - 1] == a + b';
      PlacementsConcat(a, b');
    }
  }

  lemma PlacedInConcat(a: seq<string>, b: seq<string>, c: Option<nat>)
    ensures PlacedIn(a + b, c) == PlacedIn(a, c) + PlacedIn(b, c)
  {
  }

  /** The collection a named node's items go into is the one the lookup finds in every later store. */
  lemma ReconcileFound(name: string, libraryID: int, parent: Option<nat>, cols: seq<Collection>, cols': seq<Collection>)
    requires name != ""
    requires Reconcile(name, libraryID, parent, cols).1 <= cols'
    ensures Reconcile(name, libraryID, parent, cols).0 == FindChild(cols', parent, libraryID, name)
  {
    var cs := Reconcile(name, libraryID, parent, cols).1;
    assert cols' == cs + cols'[|cs|..];
    FindChildStable(cs, cols'[|cs|..], parent, libraryID, name);
  }

  /** An entered node's reconciled collections survive the rest of its import. */
  lemma ImportNodeKeepsReconciled(n: Node, p: Params, parent: Option<nat>, failing: set<string>, w: World)
    requires Overlaps(n.extensions, p.extensions)
    ensures Reconcile(n.name, p.libraryID, parent, w.collections).1 <= ImportNode(n, p, parent, failing, w).collections
  {
    var (coll, cols) := Reconcile(n.name, p.libraryID, parent, w.collections);
    var w1 := ImportFiles(Sort(n.files), 0, p, coll, failing, w.(collections := cols));
    ImportFilesKeepsCollections(Sort(n.files), 0, p, coll, failing, w.(collections := cols));
    ImportFoldersExtends(n, 0, p, coll, failing, w1);
  }

  /** One turn of the file loop puts the handled file's item, if any, into the loop's collection. */
  lemma FileTurnPlaces(f: string, p: Params, coll: Option<nat>, failing: set<string>, w: World)
    ensures var w' := if Wants(f, p.extensions) then FileStep(f, p, coll, failing, w) else w;
      && w.attachments <= w'.attachments
      && Placements(w'.attachments[|w.attachments|..]) == PlacedIn(Landed(Wanted([f], p.extensions), p, failing), coll)
  {
    var w' := if Wants(f, p.extensions) then FileStep(f, p, coll, failing, w) else w;
    WantedSingle(f, p.extensions);
    assert [f][..0] == [];
    if Wants(f, p.extensions) && Lands(f, p, failing) {
      var a := if p.link then Linked(f, coll) else Imported(f, p.libraryID, coll);
      assert w'.attachments == w.attachments + [a];
      assert w'.attachments[|w.attachments|..] == [a];
      assert [a][..0] == [];
      assert Placements([a]) == [(f, coll)];
    } else {
      assert w'.attachments == w.attachments;
      assert w'.attachments[|w.attachments|..] == [];
    }
  }

  /** The file loop puts every item it adds into the loop's collection. */
  lemma {:induction false} ImportFilesPlaces(fs: seq<string>, i: nat, p: Params, coll: Option<nat>, failing: set<string>, w: World)
    requires i <= |fs|
    ensures var w' := ImportFiles(fs, i, p, coll, failing, w);
      && w.attachments <= w'.attachments
      && Placements(w'.attachments[|w.attachments|..]) == PlacedIn(Landed(Wanted(fs[i..], p.extensions), p, failing), coll)
    decreases |fs| - i
  {
    if i == |fs| {
      assert fs[i..] == [];
      assert w.attachments[|w.attachments|..] == [];
    } else {
      var w1 := if Wants(fs[i], p.extensions) then FileStep(fs[i], p, coll, failing, w) else w;
      var w' := ImportFiles(fs, i + 1, p, coll, failing, w1);
      FileTurnPlaces(fs[i], p, coll, failing, w);
      ImportFilesPlaces(fs, i + 1, p, coll, failing, w1);
      SegmentsConcat(w.attachments, w1.attachments, w'.attachments);
      PlacementsConcat(w1.attachments[|w.attachments|..], w'.attachments[|w1.attachments|..]);
      WantedSuffix(fs, i, p.extensions);
      LandedConcat(Wanted([fs[i]], p.extensions), Wanted(fs[i + 1..], p.extensions), p, failing);
      PlacedInConcat(Landed(Wanted([fs[i]], p.extensions), p, failing), Landed(Wanted(fs[i + 1..], p.extensions), p, failing), coll);
    }
  }

  /**
   * Where one `import` call puts its items: exactly as `Placed` reads them off
   * any store that holds the collections the call leaves.
   */
  lemma {:induction false} ImportNodePlaces(n: Node, p: Params, parent: Option<nat>, failing: set<string>, w: World, cols: seq<Collection>)
    requires ImportNode(n, p, parent, failing, w).collections <= cols
    ensures var w' := ImportNode(n, p, parent, failing, w);
      && w.attachments <= w'.attachments
      && Placements(w'.attachments[|w.attachments|..]) == Placed(n, p, failing, parent, cols)
    decreases n, |n.folders| + 1
  {
    if !Overlaps(n.extensions, p.extensions) {
      assert w.attachments[|w.attachments|..] == [];
    } else {
      var (coll, cs) := Reconcile(n.name, p.libraryID, parent, w.collections);
      var w1 := w.(collections := cs);
      var w2 := ImportFiles(Sort(n.files), 0, p, coll, failing, w1);
      var w3 := ImportFolders(n, 0, p, coll, failing, w2);
      if n.name != "" {
        ImportNodeKeepsReconciled(n, p, parent, failing, w);
        ReconcileFound(n.name, p.libraryID, parent, w.collections, cols);
      }
      ImportFilesPlaces(Sort(n.files), 0, p, coll, failing, w1);
      assert Sort(n.files)[0..] == Sort(n.files);
      ImportFoldersPlaces(n, 0, p, coll, failing, w2, cols);
      SegmentsConcat(w1.attachments, w2.attachments, w3.attachments);
      PlacementsConcat(w2.attachments[|w1.attachments|..], w3.attachments[|w2.attachments|..]);
    }
  }

  lemma {:induction false} ImportFoldersPlaces(n: Node, k: nat, p: Params, coll: Option<nat>, failing: set<string>, w: World, cols: seq<Collection>)
    requires k <= |n.folders|
    requires ImportFolders(n, k, p, coll, failing, w).collections <= cols
    ensures var w' := ImportFolders(n, k, p, coll, failing, w);
      && w.attachments <= w'.attachments
      && Placements(w'.attachments[|w.attachments|..]) == PlacedFolders(n, k, p, failing, coll, cols)
    decreases n, |n.folders| - k
  {
    if k == |n.folders| {
      assert w.attachments[|w.attachments|..] == [];
    } else {
      var w1 := ImportNode(n.folders[k], p, coll, failing, w);
      var w' := ImportFolders(n, k + 1, p, coll, failing, w1);
      ImportFoldersExtends(n, k + 1, p, coll, failing, w1);
      ImportNodePlaces(n.folders[k], p, coll, failing, w, cols);
      ImportFoldersPlaces(n, k + 1, p, coll, failing, w1, cols);
      SegmentsConcat(w.attachments, w1.attachments, w'.attachments);
      PlacementsConcat(w1.attachments[|w.attachments|..], w'.attachments[|w1.attachments|..]);
    }
  }

  /**
   * An entered named node's own items come first and go into its same-named
   * collection under its parent's; when that collection already existed, into
   * that one, so its files are added to the existing collection.
   */
  lemma OwnFilesInOwnCollection(n: Node, p: Params, parent: Option<nat>, failing: set<string>, w: World)
    requires Overlaps(n.extensions, p.extensions) && n.name != ""
    ensures var w' := ImportNode(n, p, parent, failing, w);
      var own := Landed(Wanted(Sort(n.files), p.extensions), p, failing);
      var c := FindChild(w'.collections, parent, p.libraryID, n.name);
      && c.Some? && Matches(w'.collections[c.value], parent, p.libraryID, n.name)
      && (FindChild(w.collections, parent, p.libraryID, n.name).Some? ==> c == FindChild(w.collections, parent, p.libraryID, n.name))
      && w.attachments <= w'.attachments
      && |own| <= |w'.attachments| - |w.attachments|
      && forall j :: 0 <= j < |own| ==>
           w'.attachments[|w.attachments| + j].file == own[j] && w'.attachments[|w.attachments| + j].collection == c
  {
    var w' := ImportNode(n, p, parent, failing, w);
    var own := Landed(Wanted(Sort(n.files), p.extensions), p, failing);
    ImportNodeKeepsReconciled(n, p, parent, failing, w);
    ReconcileFound(n.name, p.libraryID, parent, w.collections, w'.collections);
    ImportNodePlaces(n, p, parent, failing, w, w'.collections);
    var added := w'.attachments[|w.attachments|..];
    forall j | 0 <= j < |own|
      ensures w'.attachments[|w.attachments| + j].file == own[j]
      ensures w'.attachments[|w.attachments| + j].collection == FindChild(w'.collections, parent, p.libraryID, n.name)
    {
      PlacementsAt(added, j);
    }
  }

  lemma {:induction false} PlacementsAt(items: seq<Attachment>, j: nat)
    requires j < |items|
    ensures Placements(items)[j] == (items[j].file, items[j].collection)
    decreases |items|
  {
    if j < |items| - 1 {
      PlacementsAt(items[..|items| - 1], j);
    }
  }

  // ----- Order ------------------------------------------------------------

  lemma {:induction false} WantedSorted(fs: seq<string>, filter: set<string>)
    requires Sorted(fs)
    ensures Sorted(Wanted(fs, filter))
    ensures forall x :: x in Wanted(fs, filter) ==> x in fs
  {
    if fs != [] {
      var init := fs[..|fs| - 1];
      assert Sorted(init);
      WantedSorted(init, filter);
      var r := Wanted(fs, filter);
      var ri := Wanted(init, filter);
      if Wants(fs[|fs| - 1], filter) {
        assert r == ri + [fs[|fs| - 1]];
        forall i, j | 0 <= i < j < |r| ensures StrLe(r[i], r[j]) {
          if j == |r| - 1 {
            assert r[i] in init;
            var m :| 0 <= m < |init| && init[m] == r[i];
            assert fs[m] == r[i];
          } else {
            assert r[i] == ri[i] && r[j] == ri[j];
          }
        }
      }
    }
  }

  /**
   * The order of the walk in a node that is entered: its own filtered files
   * first, in sorted order, then each child's walk in child order.
   */
  lemma OwnFilesFirstSorted(n: Node, filter: set<string>)
    requires Overlaps(n.extensions, filter)
    ensures Walk(n, filter) == Wanted(Sort(n.files), filter) + WalkFolders(n, 0, filter)
    ensures Sorted(Wanted(Sort(n.files), filter))
    ensures multiset(Wanted(Sort(n.files), filter)) == multiset(Wanted(n.files, filter))
  {
    SortSorted(n.files);
    WantedSorted(Sort(n.files), filter);
    WantedPermutation(Sort(n.files), n.files, filter);
  }

  // ----- The in-place sort ------------------------------------------------

  lemma {:induction false} AfterImportFiles(n: Node, filter: set<string>)
    ensures multiset(AllFiles(AfterImport(n, filter))) == multiset(AllFiles(n))
    decreases n, |n.folders| + 1
  {
    if Overlaps(n.extensions, filter) {
      AfterImportFolderFiles(n, 0, filter);
    }
  }

  lemma {:induction false} AfterImportFolderFiles(n: Node, k: nat, filter: set<string>)
    requires k <= |n.folders|
    requires Overlaps(n.extensions, filter)
    ensures multiset(FolderFiles(AfterImport(n, filter), k)) == multiset(FolderFiles(n, k))
    decreases n, |n.folders| - k
  {
    if k < |n.folders| {
      assert AfterImport(n, filter).folders[k] == AfterImport(n.folders[k], filter);
      AfterImportFiles(n.folders[k], filter);
      AfterImportFolderFiles(n, k + 1, filter);
    }
  }

  /** Sorting `files` in place neither loses nor adds a file, so a later `selected` counts the same. */
  lemma SelectedAfterImport(n: Node, filter: set<string>, later: set<string>)
    ensures SelectedCount(AfterImport(n, filter), later) == SelectedCount(n, later)
  {
    AfterImportFiles(n, filter);
    WantedPermutation(AllFiles(AfterImport(n, filter)), AllFiles(n), later);
    assert |multiset(Wanted(AllFiles(AfterImport(n, filter)), later))| == |multiset(Wanted(AllFiles(n), later))|;
  }

  /** Importing again from the tree the first import left (its files sorted) does what importing the original does. */
  lemma {:induction false} ImportAfterImport(n: Node, p: Params, parent: Option<nat>, failing: set<string>, w: World)
    ensures ImportNode(AfterImport(n, p.extensions), p, parent, failing, w) == ImportNode(n, p, parent, failing, w)
    decreases n, |n.folders| + 1
  {
    if Overlaps(n.extensions, p.extensions) {
      var (coll, cols) := Reconcile(n.name, p.libraryID, parent, w.collections);
      SortIdempotent(n.files);
      var w1 := ImportFiles(Sort(n.files), 0, p, coll, failing, w.(collections := cols));
      ImportFoldersAfterImport(n, 0, p, coll, failing, w1);
    }
  }

  lemma {:induction false} ImportFoldersAfterImport(n: Node, k: nat, p: Params, coll: Option<nat>, failing: set<string>, w: World)
    requires k <= |n.folders|
    requires Overlaps(n.extensions, p.extensions)
    ensures ImportFolders(AfterImport(n, p.extensions), k, p, coll, failing, w) == ImportFolders(n, k, p, coll, failing, w)
    decreases n, |n.folders| - k
  {
    if k < |n.folders| {
      assert AfterImport(n, p.extensions).folders[k] == AfterImport(n.folders[k], p.extensions);
      ImportAfterImport(n.folders[k], p, coll, failing, w);
      ImportFoldersAfterImport(n, k + 1, p, coll, failing, ImportNode(n.folders[k], p, coll, failing, w));
    }
  }

  // ----- Collections ------------------------------------------------------

  /**
   * The collections already mirror the subtree: every named node the walk
   * enters has a same-named collection under the collection of its parent.
   */
  predicate Mirrored(n: Node, filter: set<string>, libraryID: int, parent: Option<nat>, cols: seq<Collection>)
    decreases n
  {
    Overlaps(n.extensions, filter) ==>
      var c := if n.name == "" then parent else FindChild(cols, parent, libraryID, n.name);
      && (n.name != "" ==> c.Some?)
      && forall k :: 0 <= k < |n.folders| ==> Mirrored(n.folders[k], filter, libraryID, c, cols)
  }

  /** Adding collections never undoes a mirror: lookups find the first match. */
  lemma {:induction false} MirroredGrow(n: Node, filter: set<string>, libraryID: int, parent: Option<nat>, cols: seq<Collection>, cols': seq<Collection>)
    requires Mirrored(n, filter, libraryID, parent, cols)
    requires cols <= cols'
    ensures Mirrored(n, filter, libraryID, parent, cols')
    decreases n
  {
    if Overlaps(n.extensions, filter) {
      if n.name != "" {
        assert cols' == cols + cols'[|cols|..];
        FindChildStable(cols, cols'[|cols|..], parent, libraryID, n.name);
      }
      var c := if n.name == "" then parent else FindChild(cols, parent, libraryID, n.name);
      forall k | 0 <= k < |n.folders|
        ensures Mirrored(n.folders[k], filter, libraryID, c, cols')
      {
        MirroredGrow(n.folders[k], filter, libraryID, c, cols, cols');
      }
    }
  }

  /** After an import the collections mirror every part of the tree the import entered. */
  lemma {:induction false} ImportMirrors(n: Node, p: Params, parent: Option<nat>, failing: set<string>, w: World)
    ensures Mirrored(n, p.extensions, p.libraryID, parent, ImportNode(n, p, parent, failing, w).collections)
    decreases n, |n.folders| + 1
  {
    if Overlaps(n.extensions, p.extensions) {
      var (coll, cols) := Reconcile(n.name, p.libraryID, parent, w.collections);
      var w1 := ImportFiles(Sort(n.files), 0, p, coll, failing, w.(collections := cols));
      ImportFilesExtends(Sort(n.files), 0, p, coll, failing, w.(collections := cols));
      ImportFoldersExtends(n, 0, p, coll, failing, w1);
      var final := ImportFolders(n, 0, p, coll, failing, w1).collections;
      assert cols <= final;
      if n.name != "" {
        assert final == cols + final[|cols|..];
        FindChildStable(cols, final[|cols|..], parent, p.libraryID, n.name);
      }
      ImportFoldersMirror(n, 0, p, coll, failing, w1);
    }
  }

  lemma {:induction false} ImportFoldersMirror(n: Node, k: nat, p: Params, coll: Option<nat>, failing: set<string>, w: World)
    requires k <= |n.folders|
    ensures forall j :: k <= j < |n.folders| ==>
      Mirrored(n.folders[j], p.extensions, p.libraryID, coll, ImportFolders(n, k, p, coll, failing, w).collections)
    decreases n, |n.folders| - k
  {
    if k < |n.folders| {
      var w1 := ImportNode(n.folders[k], p, coll, failing, w);
      var final := ImportFolders(n, k + 1, p, coll, failing, w1).collections;
      ImportMirrors(n.folders[k], p, coll, failing, w);
      ImportFoldersExtends(n, k + 1, p, coll, failing, w1);
      MirroredGrow(n.folders[k], p.extensions, p.libraryID, coll, w1.collections, final);
      ImportFoldersMirror(n, k + 1, p, coll, failing, w1);
    }
  }

  lemma {:induction false} ImportFilesKeepsCollections(fs: seq<string>, i: nat, p: Params, coll: Option<nat>, failing: set<string>, w: World)
    requires i <= |fs|
    ensures ImportFiles(fs, i, p, coll, failing, w).collections == w.collections
    decreases |fs| - i
  {
    if i < |fs| {
      ImportFilesKeepsCollections(fs, i + 1, p, coll, failing,
        if Wants(fs[i], p.extensions) then FileStep(fs[i], p, coll, failing, w) else w);
    }
  }

  /** Over mirrored collections an import finds every collection it needs and creates none. */
  lemma {:induction false} MirroredCreatesNothing(n: Node, p: Params, parent: Option<nat>, failing: set<string>, w: World)
    requires Mirrored(n, p.extensions, p.libraryID, parent, w.collections)
    ensures ImportNode(n, p, parent, failing, w).collections == w.collections
    decreases n, |n.folders| + 1
  {
    if Overlaps(n.extensions, p.extensions) {
      var (coll, cols) := Reconcile(n.name, p.libraryID, parent, w.collections);
      assert cols == w.collections;
      var w1 := ImportFiles(Sort(n.files), 0, p, coll, failing, w.(collections := cols));
      ImportFilesKeepsCollections(Sort(n.files), 0, p, coll, failing, w.(collections := cols));
      MirroredFoldersCreateNothing(n, 0, p, coll, failing, w1);
    }
  }

  lemma {:induction false} MirroredFoldersCreateNothing(n: Node, k: nat, p: Params, coll: Option<nat>, failing: set<string>, w: World)
    requires k <= |n.folders|
    requires forall j :: k <= j < |n.folders| ==> Mirrored(n.folders[j], p.extensions, p.libraryID, coll, w.collections)
    ensures ImportFolders(n, k, p, coll, failing, w).collections == w.collections
    decreases n, |n.folders| - k
  {
    if k < |n.folders| {
      var w1 := ImportNode(n.folders[k], p, coll, failing, w);
      MirroredCreatesNothing(n.folders[k], p, coll, failing, w);
      MirroredFoldersCreateNothing(n, k + 1, p, coll, failing, w1);
    }
  }

  /**
   * Re-importing the same folder into the same place reuses every collection
   * the first import found or created, whatever the attach calls do each time
   * and whatever collections were created in between.
   */
  lemma ReimportCreatesNoCollections(n: Node, p: Params, parent: Option<nat>, failing: set<string>, failing': set<string>, w: World, w': World)
    requires ImportNode(n, p, parent, failing, w).collections <= w'.collections
    ensures ImportNode(n, p, parent, failing', w').collections == w'.collections
  {
    ImportMirrors(n, p, parent, failing, w);
    MirroredGrow(n, p.extensions, p.libraryID, parent, ImportNode(n, p, parent, failing, w).collections, w'.collections);
    MirroredCreatesNothing(n, p, parent, failing', w');
  }

  // ----- The extension filter is case-sensitive ---------------------------

  /**
   * Scan keys are lower-cased but the filter is looked up with the raw
   * extension: with a filter of scan keys, a file whose extension has an
   * upper-case letter is never selected nor attached.
   */
  lemma UpperCaseExtensionNeverWanted(f: string, filter: set<string>)
    requires forall e :: e in filter ==> e != "" && IsLower(e)
    requires Extension(f).Some? && !IsLower(Extension(f).value)
    ensures !Wants(f, filter)
  {
  }

  /** A folder whose only file is `f`, in a child folder `name`, with the key `key` the scan gives `f`. */
  function LoneFileTree(root: string, name: string, f: string, key: string): Node
  {
    Node(root, "", [], [Node(Join(root, name), name, [f], [], {key})], {key})
  }

  lemma LoneFileTreeFiles(root: string, name: string, f: string, key: string)
    ensures AllFiles(LoneFileTree(root, name, f, key)) == [f]
  {
    var n := LoneFileTree(root, name, f, key);
    var sub := n.folders[0];
    assert FolderFiles(sub, 0) == [];
    assert AllFiles(sub) == [f] + [] == [f];
    assert FolderFiles(n, 1) == [];
    assert FolderFiles(n, 0) == AllFiles(sub) + FolderFiles(n, 1) == [f];
    assert AllFiles(n) == [] + [f];
  }

  lemma FileExtensionsSingle(f: string)
    ensures FileExtensions([f]) == if ExtKey(f).Some? then {ExtKey(f).value} else {}
  {
    assert forall g :: g in [f] ==> g == f;
  }

  lemma LoneFolderAggregated(path: string, name: string, f: string, key: string)
    requires ExtKey(f) == Some(key)
    ensures Aggregated(Node(path, name, [f], [], {key}))
  {
    FileExtensionsSingle(f);
    assert FolderExtensions([]) == {};
  }

  lemma OneChildAggregated(path: string, sub: Node)
    requires Aggregated(sub)
    ensures Aggregated(Node(path, "", [], [sub], sub.extensions))
  {
    assert FileExtensions([]) == {};
    assert FolderExtensions([]) == {};
    FolderExtensionsCons(sub, []);
    assert [sub] + [] == [sub];
  }

  lemma LoneFileTreeAggregated(root: string, name: string, f: string, key: string)
    requires ExtKey(f) == Some(key)
    ensures Aggregated(LoneFileTree(root, name, f, key))
  {
    LoneFolderAggregated(Join(root, name), name, f, key);
    OneChildAggregated(root, Node(Join(root, name), name, [f], [], {key}));
  }

  /**
   * The consequence: a file such as `c.PDF` contributes the key `pdf`, so an
   * import whose filter holds that key enters its folder and creates the
   * folder's collection, yet `selected` counts nothing, nothing is attached and
   * no progress is reported.
   */
  lemma UpperCaseOnlyFolderIsEmptyCollection(root: string, name: string, f: string, key: string, p: Params, failing: set<string>)
    requires name != ""
    requires Extension(f).Some? && !IsLower(Extension(f).value)
    requires ExtKey(f) == Some(key) && key in p.extensions
    requires forall e :: e in p.extensions ==> e != "" && IsLower(e)
    ensures var n := LoneFileTree(root, name, f, key);
      && Aggregated(n)
      && SelectedCount(n, p.extensions) == 0
      && ImportNode(n, p, None, failing, World([], [], [], 0)) == World([Collection(name, p.libraryID, None)], [], [], 0)
  {
    LoneFileTreeAggregated(root, name, f, key);
    LoneFileTreeFiles(root, name, f, key);
    UpperCaseImport(root, name, f, key, p, failing);
  }

  lemma UpperCaseImport(root: string, name: string, f: string, key: string, p: Params, failing: set<string>)
    requires name != "" && key != "" && key in p.extensions && !Wants(f, p.extensions)
    ensures Wanted([f], p.extensions) == []
    ensures ImportNode(LoneFileTree(root, name, f, key), p, None, failing, World([], [], [], 0))
         == World([Collection(name, p.libraryID, None)], [], [], 0)
  {
    var n := LoneFileTree(root, name, f, key);
    var sub := n.folders[0];
    assert Wanted([f], p.extensions) == [] by { assert [f][..0] == []; }
    assert Overlaps(sub.extensions, p.extensions) && Overlaps(n.extensions, p.extensions) by {
      assert key in sub.extensions;
    }
    var w0 := World([], [], [], 0);
    assert Sort([f]) == [f];
    var w1 := w0.(collections := [Collection(name, p.libraryID, None)]);
    var c := Collection(name, p.libraryID, None);
    assert FindChild([], None, p.libraryID, name).None?;
    assert [] + [c] == [c];
    assert Reconcile(name, p.libraryID, None, []).1 == [c];
    assert Reconcile(name, p.libraryID, None, []).0 == Some(0);
    assert ImportFiles([f], 1, p, Some(0), failing, w1) == w1;
    assert ImportFiles([f], 0, p, Some(0), failing, w1) == w1;
    assert ImportNode(sub, p, None, failing, w0) == w1;
    assert Sort(n.files) == [];
    assert Reconcile(n.name, p.libraryID, None, []) == (None, []);
    assert ImportFiles([], 0, p, None, failing, w0) == w0;
    assert ImportNode(n, p, None, failing, w0) == ImportFolders(n, 0, p, None, failing, w0);
    assert ImportFolders(n, 1, p, None, failing, w1) == w1;
    assert ImportFolders(n, 0, p, None, failing, w0) == ImportFolders(n, 1, p, None, failing, w1);
  }

  /** The base name of `/r/sub/c.PDF`. */
  lemma UpperCasePdfBasename()
    ensures Basename("/r/sub/c.PDF") == "c.PDF"
  {
    var name := "c.PDF";
    assert name[0] == 'c' && name[1] == '.' && name[2] == 'P' && name[3] == 'D' && name[4] == 'F';
    LastIndexOfSpec(name, '/');
    assert LastIndexOf(name, '/') == -1;
    assert "/r/sub/c.PDF" == Join("/r/sub", name);
    BasenameOfJoin("/r/sub", name);
  }

  /** Such files exist: `/r/sub/c.PDF` has the extension `PDF` and the scan key `pdf`. */
  lemma UpperCasePdfIsSuchAFile()
    ensures Extension("/r/sub/c.PDF") == Some("PDF") && !IsLower("PDF")
    ensures ExtKey("/r/sub/c.PDF") == Some("pdf")
  {
    var name := "c.PDF";
    UpperCasePdfBasename();
    ExtensionSpec("/r/sub/c.PDF");
    assert name[0] == 'c' && name[1] == '.' && name[2] == 'P' && name[3] == 'D' && name[4] == 'F';
    var r := Extension("/r/sub/c.PDF");
    assert |r.value| == 3;
    assert r.value == name[2..] == "PDF";
    assert "PDF"[0] == 'P';
    assert Lower("PDF") == "pdf" by {
      assert LowerChar('P') == 'p' && LowerChar('D') == 'd' && LowerChar('F') == 'f';
    }
  }
}
