# zotero-folder-import, modelled in Dafny

This project models the core of the Zotero plugin "Add Files from Folder". The user picks a directory. A tree of `FolderScanner`s walks it and records, for every directory:

- its files, in listing order;
- its sub-directories;
- the set of lower-cased file extensions found anywhere below it.

Next, the user picks some of those extensions. The walk then replicates the folder structure as a hierarchy of Zotero collections. A directory with no selected extension anywhere below it is skipped. Each directory's selected files are attached, sorted, before its sub-directories are visited:

- A file is linked when the target library allows links.
- Otherwise it is copied, except that a `.lnk` shortcut is skipped.
- Every copied PDF is collected for metadata recognition.
- The progress status counts one step per selected file.

Layout:

- `wrappers.dfy`: `Option`.
- `paths.dfy`: `OS.Path.join`, `OS.Path.basename`, the scanner's `extension`, ASCII lower-casing and `endsWith`.
- `sorting.dfy`: `Array.prototype.sort` on strings, as insertion sort with its correctness lemmas.
- `store.dfy`: the library the importer talks to. It holds collections and attachment items, as the `Library` class. It also holds the `pdfs` array, as the `PdfList` class.
- `scanning.dfy`: the scan phase on values. It covers the directory tree (`Entry`, `Listing`), one scanner's state (`Node`) and the scanner tree `scan` builds (`Scanned`). It also holds the aggregation invariant and the count `selected` returns.
- `importing.dfy`: the import phase on values. `ImportNode` says what one `import` call does to the library, to `pdfs` and to `status.done`. This file holds the lemmas about that walk:
  - progress;
  - pruning;
  - attach mode;
  - order;
  - where each item goes;
  - collection reconciliation and re-import.
- `zotero_folder_import.dfy`: the two classes of the plugin.
  - The scanner's `scan`, `selected` and `import` are methods over `Node` values. Each is proved equal to the value-level function above.
  - `FolderImport` is a class. Its `status` field is updated in place. Its `AddAttachmentsFromFolder` method drives a whole run and proves `done == total` at the end of a run in which no collection is saved or loaded with an error.

## Case of extensions

One might expect a file `c.PDF` to be imported under the filter `{pdf}`. The code does not do that:

- `extension` returns the extension with its case preserved (`content/zotero-folder-import.ts:171-176`).
- Only the set of found extensions is lower-cased (line 87).
- `selected` (line 100) and the file filter of `import` (line 137) look up the raw extension.

So `c.PDF` is never counted and never attached under the filter `{pdf}`. Its directory still gets a collection, because its lower-cased key `pdf` matches. `UpperCaseOnlyFolderIsEmptyCollection` and `UpperCaseImport` state this.

The PDF test on line 155 lower-cases the whole path. The `.lnk` test on line 148 does not.

## Model

| member | source | states |
|---|---|---|
| Paths.BasenameSpec | content/zotero-folder-import.ts:71 | `OS.Path.basename` yields the longest slash-free suffix of the path, preceded by '/' unless it is the whole path |
| Paths.BasenameOfJoin | content/zotero-folder-import.ts:80 | the base name of `join(path, name)` is the base name of `name` |
| Paths.ExtensionSpec | content/zotero-folder-import.ts:171-176 | `extension` yields nothing exactly when the base name starts with '.' or has no '.'; otherwise it yields the dot- and slash-free text after the base name's last '.', case preserved |
| Paths.ExtensionOfJoin | content/zotero-folder-import.ts:86 | the extension of an entry name equals that of the joined path the scanner stores, so later filtering on paths agrees with the keys |
| Paths.LowerIsLower | content/zotero-folder-import.ts:87 | lower-casing yields a lower-case string and leaves one unchanged |
| Sorting.Sort | content/zotero-folder-import.ts:136 | `files.sort()` returns a permutation of the files |
| Sorting.SortSorted | content/zotero-folder-import.ts:136 | the result of `sort()` is ordered by code points |
| Sorting.SortOfSorted | content/zotero-folder-import.ts:136 | sorting an ordered list leaves it unchanged |
| Sorting.InsertFirst | content/zotero-folder-import.ts:136 | an element no greater than the first goes in front |
| Sorting.SortIdempotent | content/zotero-folder-import.ts:136 | a second `sort()`, on a re-import, changes nothing |
| Sorting.InsertSorted | content/zotero-folder-import.ts:136 | inserting into an ordered list keeps it ordered |
| Sorting.StrLeTotal | content/zotero-folder-import.ts:136 | the string order `sort()` uses is total |
| Sorting.StrLeTransitive | content/zotero-folder-import.ts:136 | that order is transitive |
| Sorting.StrLeAntisymmetric | content/zotero-folder-import.ts:136 | that order is antisymmetric |
| Store.FindFrom | content/zotero-folder-import.ts:114 | the search finds the first acceptable collection from a position on, or reports that none exists |
| Store.FindChild | content/zotero-folder-import.ts:114 | `find(child => child.name === name)` over the children of the parent, or over the library's top level, finds the first collection with that name, or none when there is none |
| Store.FindChildStable | content/zotero-folder-import.ts:114-119 | creating more collections never changes which existing collection the lookup finds |
| Store.FindChildCreated | content/zotero-folder-import.ts:120-128 | after a failed lookup, the collection created is exactly what the next lookup finds |
| Store.Library.CreateCollection | content/zotero-folder-import.ts:123-128 | `new Zotero.Collection` plus `saveTx()` appends a collection with the given name, library and parent, and returns its key; items are untouched |
| Store.Library.LinkFromFile | content/zotero-folder-import.ts:142-146 | `linkFromFile` appends a linked item in the current collection, or changes nothing when the call throws |
| Store.Library.ImportFromFile | content/zotero-folder-import.ts:150-154 | `importFromFile` appends a copied item in the library and collection, and returns its key; it returns nothing and changes nothing when the call throws |
| Store.PdfList.Push | content/zotero-folder-import.ts:155 | `pdfs.push(item)` appends the item |
| Store.PdfList.constructor | content/zotero-folder-import.ts:250 | `pdfs` starts empty |
| Scanning.ExtKey | content/zotero-folder-import.ts:86-87 | the key a file adds to `extensions` is non-empty and lower case |
| Scanning.DirsOf | content/zotero-folder-import.ts:78-80 | the entries scanned as sub-directories are directory entries of the listing |
| Scanning.EntriesNone | content/zotero-folder-import.ts:61-63 | before the enumeration, no files, folders or extensions have been recorded |
| Scanning.EntriesPrefix | content/zotero-folder-import.ts:76-89 | each entry the iterator yields adds one file path and its key, or one directory, in enumeration order |
| Scanning.OwnExtensionsSnoc | content/zotero-folder-import.ts:86-87 | a file entry adds exactly its key if it has one; a directory entry adds nothing |
| Scanning.ScanDirsAt | content/zotero-folder-import.ts:92 | the children's scans succeed together exactly when each one succeeds; then each child is the scan of its own entry, in order |
| Scanning.ScannedShape | content/zotero-folder-import.ts:68-85 | a finished scan has the given name and one file path per file entry in enumeration order. It has one child per directory entry, at `join(path, entry)`, named by the entry's base name |
| Scanning.OwnExtensionsOfFiles | content/zotero-folder-import.ts:85-87 | the keys taken from entry names are the keys of the stored file paths |
| Scanning.ScannedAggregated | content/zotero-folder-import.ts:86-95 | every scanner tree `scan` builds satisfies the aggregation invariant: a node's `extensions` are the keys of its own files plus its children's `extensions` |
| Scanning.ExtensionsOfSubtree | content/zotero-folder-import.ts:93-95 | under that invariant, a node's `extensions` are exactly the keys of all files below it |
| Scanning.FolderExtensionsOfSubtree | content/zotero-folder-import.ts:93-95 | under that invariant, the children from the k-th on contribute exactly the keys of their files |
| Scanning.ExtensionsAreKeys | content/zotero-folder-import.ts:87 | under that invariant, every recorded extension is non-empty and lower case |
| Scanning.ChildExtensionsContained | content/zotero-folder-import.ts:93-95 | under that invariant, a child's extensions are among its parent's |
| Scanning.FileExtensionsSnoc | content/zotero-folder-import.ts:85-87 | one more file adds exactly its key |
| Scanning.FileExtensionsConcat | content/zotero-folder-import.ts:93-95 | the keys of two file lists are the union of their keys |
| Scanning.FolderExtensionsSnoc | content/zotero-folder-import.ts:93-94 | the union of the children's extensions grows by exactly the next child's |
| Scanning.FolderExtensionsCons | content/zotero-folder-import.ts:93-94 | the union over children is the first child's extensions plus the rest's |
| Scanning.WantedConcat | content/zotero-folder-import.ts:100-104 | the filter over a concatenation is the concatenation of the filters |
| Scanning.WantedMultiset | content/zotero-folder-import.ts:100 | the filter keeps exactly the files whose raw extension is selected, as often as they occur |
| Scanning.WantedPermutation | content/zotero-folder-import.ts:100 | filtering two rearrangements of one list gives rearrangements of each other |
| Scanning.WantedFileHasKey | content/zotero-folder-import.ts:87 | with a filter of keys, a file the filter keeps has its extension among every ancestor's `extensions` |
| Importing.Reconcile | content/zotero-folder-import.ts:113-133 | the unnamed root keeps the parent collection. A named node goes into the first same-named child of the parent, and collections are only appended. When none exists, exactly one collection with its name, library and parent is appended |
| Importing.AfterImport | content/zotero-folder-import.ts:136 | after an import, each scanner keeps its path, name, extensions and number of children |
| Importing.PdfKeysConcat | content/zotero-folder-import.ts:155 | the PDF keys of two batches of items are those of the first, then those of the second |
| Importing.FilesOfItemsConcat | content/zotero-folder-import.ts:139-156 | proof helper for the accounting of added items: the files of two batches of items are those of the first, then those of the second |
| Importing.LandedConcat | content/zotero-folder-import.ts:139-160 | the files that land from two file lists are those of the first, then those of the second |
| Importing.ExtendsRefl | content/zotero-folder-import.ts:107-169 | handling no file changes nothing in the accounting |
| Importing.AddsConcat | content/zotero-folder-import.ts:136-168 | the items added for two batches of files are the first's items, then the second's |
| Importing.SegmentsConcat | content/zotero-folder-import.ts:136-168 | proof helper, a fact about sequences used to compose consecutive steps: the items two steps append to a growing store are the first step's, then the second's |
| Importing.PdfKeysTrans | content/zotero-folder-import.ts:155 | the `pdfs` pushes of two consecutive steps are those of the first step, then those of the second |
| Importing.ExtendsTrans | content/zotero-folder-import.ts:136-168 | two consecutive walks compose into one walk over both file lists |
| Importing.SingleItem | content/zotero-folder-import.ts:139-156 | one item contributes its file, and its key when it is a copied PDF |
| Importing.FileStepExtends | content/zotero-folder-import.ts:139-163 | one selected file adds one item of the mode's kind when it lands. When it is a copied PDF, its key is pushed onto `pdfs`. It advances the progress by one, whether or not the call threw |
| Importing.ReconcileExtends | content/zotero-folder-import.ts:113-133 | reconciliation only appends collections and attaches nothing |
| Importing.WantedSingle | content/zotero-folder-import.ts:137 | a single file passes the filter exactly when its raw extension is selected |
| Importing.WantedSuffix | content/zotero-folder-import.ts:136-137 | the filter over the files from position i is file i's filter followed by the rest |
| Importing.FileTurnExtends | content/zotero-folder-import.ts:136-163 | one turn of the file loop handles the file exactly when it passes the filter |
| Importing.ImportFilesExtends | content/zotero-folder-import.ts:136-164 | the file loop handles exactly the selected files, in sorted order, and only appends items |
| Importing.ImportNodeExtends | content/zotero-folder-import.ts:107-169 | an import handles exactly the files `Walk` lists, in that order. It only appends collections and items, adds one item per landing file, pushes exactly the copied PDFs, in order, and counts one update per handled file |
| Importing.ImportFoldersExtends | content/zotero-folder-import.ts:166-168 | the child loop handles the children's walks one after the other |
| Importing.PruneIsNoop | content/zotero-folder-import.ts:109 | a subtree with no selected extension is left alone: the library, `pdfs` and progress are unchanged |
| Importing.PruneIsSound | content/zotero-folder-import.ts:109 | pruning never skips a file the filter would keep, when the filter holds keys and the tree is aggregated |
| Importing.WalkIsSelected | content/zotero-folder-import.ts:99-105 | the files the import visits are, as a multiset, exactly the files `selected` counts |
| Importing.WalkFoldersIsSelected | content/zotero-folder-import.ts:101-103 | the same for the children from the k-th on |
| Importing.ProgressCountsWalk | content/zotero-folder-import.ts:163 | `done` advances once for each file the walk handles |
| Importing.ProgressReachesSelected | content/zotero-folder-import.ts:252-253 | when the selected extensions are among the root's, the walk advances `done` by exactly `selected(extensions)`. Starting from 0, `done` reaches `total` |
| Importing.NothingSelectedNothingAttached | content/zotero-folder-import.ts:109-163 | when no file is selected, no item is created, nothing is pushed onto `pdfs` and there is no progress |
| Importing.LandedMembers | content/zotero-folder-import.ts:139-160 | every file that lands is one of the handled files and passes the landing conditions |
| Importing.FilesOfItemsMembers | content/zotero-folder-import.ts:139-156 | every added item's file is listed among the items' files |
| Importing.AttachModePolicy | content/zotero-folder-import.ts:140-156 | every item an import adds is linked exactly in link mode, and a copied one is in the chosen library. None is for a file whose call threw, and in copy mode none is for a `.lnk` file |
| Importing.PlacementsConcat | content/zotero-folder-import.ts:139-156 | the (file, collection) pairs of two batches of items are those of the first, then those of the second |
| Importing.PlacementsAt | content/zotero-folder-import.ts:139-156 | the j-th pair is the j-th item's file and collection |
| Importing.PlacedInConcat | content/zotero-folder-import.ts:136-164 | proof helper for the file loop's placement: placing two file lists in one collection is placing the first, then the second |
| Importing.ReconcileFound | content/zotero-folder-import.ts:113-128 | the collection a named node's items go into is the first same-named child its parent has in every later store |
| Importing.ImportNodeKeepsReconciled | content/zotero-folder-import.ts:113-168 | the collections reconciliation leaves survive the rest of the node's import |
| Importing.FileTurnPlaces | content/zotero-folder-import.ts:137-156 | one turn of the file loop puts the item it adds, if any, into the current collection (`collections: [collection.id]`, or none at the library root) |
| Importing.ImportFilesPlaces | content/zotero-folder-import.ts:136-164 | every item the file loop adds is for a landing selected file, in sorted order, and goes into the current collection |
| Importing.ImportNodePlaces | content/zotero-folder-import.ts:107-169 | every item an import adds goes into the collection of the directory the file is in: the root's into the selected collection, every other's into the same-named collection under its parent's, each node's items before its children's |
| Importing.ImportFoldersPlaces | content/zotero-folder-import.ts:166-168 | the same for the children from the k-th on |
| Importing.OwnFilesInOwnCollection | content/zotero-folder-import.ts:113-156 | an entered named directory's own items come first and go into its same-named collection under its parent's; when that collection already existed, into that one |
| Importing.WantedSorted | content/zotero-folder-import.ts:136-137 | filtering sorted files keeps them sorted |
| Importing.OwnFilesFirstSorted | content/zotero-folder-import.ts:136-168 | an unpruned node handles its own selected files first, in sorted order, then its children's |
| Importing.AfterImportFiles | content/zotero-folder-import.ts:136 | the in-place `sort()` keeps the files of the whole tree, as a multiset |
| Importing.AfterImportFolderFiles | content/zotero-folder-import.ts:136 | the same for the children from the k-th on |
| Importing.SelectedAfterImport | content/zotero-folder-import.ts:99-105 | after an import, `selected` returns what it returned before, for any filter |
| Importing.ImportAfterImport | content/zotero-folder-import.ts:136 | importing the already sorted tree again does what the first import did |
| Importing.ImportFoldersAfterImport | content/zotero-folder-import.ts:166-168 | the same for the children from the k-th on |
| Importing.MirroredGrow | content/zotero-folder-import.ts:113-119 | a collection tree that mirrors the scanner tree still mirrors it after more collections are added |
| Importing.ImportMirrors | content/zotero-folder-import.ts:113-133 | after an import, every unpruned named directory has a same-named collection under its parent's collection |
| Importing.ImportFoldersMirror | content/zotero-folder-import.ts:166-168 | after the child loop, every child has its mirrored collection |
| Importing.ImportFilesKeepsCollections | content/zotero-folder-import.ts:136-164 | attaching files never changes the collections |
| Importing.MirroredCreatesNothing | content/zotero-folder-import.ts:113-119 | importing into collections that already mirror the tree creates no collection |
| Importing.MirroredFoldersCreateNothing | content/zotero-folder-import.ts:166-168 | the same for the children from the k-th on |
| Importing.ReimportCreatesNoCollections | content/zotero-folder-import.ts:113-133 | importing the same tree again, with any failing calls and into a store that holds the first import's collections plus any created since, creates no new collection |
| Importing.UpperCaseExtensionNeverWanted | content/zotero-folder-import.ts:137 | with a filter of found keys, a file whose raw extension has an upper-case letter never passes the filter |
| Importing.UpperCasePdfBasename | content/zotero-folder-import.ts:172 | a step for `UpperCasePdfIsSuchAFile`, not a property of `OS.Path.basename`: the base name of the one path `/r/sub/c.PDF` is `c.PDF` |
| Importing.UpperCasePdfIsSuchAFile | content/zotero-folder-import.ts:171-176 | `extension("/r/sub/c.PDF")` is `PDF`, which is not lower case, and the key line 87 adds for the file is `pdf` |
| Importing.LoneFileTreeFiles | content/zotero-folder-import.ts:98-105 | the tree holding one directory with one file lists just that file |
| Importing.FileExtensionsSingle | content/zotero-folder-import.ts:86-87 | a single file contributes exactly its key |
| Importing.LoneFolderAggregated | content/zotero-folder-import.ts:93-95 | a directory with one keyed file is aggregated |
| Importing.OneChildAggregated | content/zotero-folder-import.ts:93-95 | a root with one aggregated child and no files is aggregated |
| Importing.LoneFileTreeAggregated | content/zotero-folder-import.ts:93-95 | the one-directory, one-file tree is aggregated |
| Importing.UpperCaseOnlyFolderIsEmptyCollection | content/zotero-folder-import.ts:109-137 | a directory whose only file is `c.PDF`, under the filter `{pdf}`, counts 0 selected files. Its collection is still created, and nothing is attached |
| Importing.UpperCaseImport | content/zotero-folder-import.ts:113-137 | a directory whose only file fails the raw filter while its key is selected gets a collection and no item |
| ZoteroFolderImport.NewScanner | content/zotero-folder-import.ts:61-72 | a new scanner has no files, folders or extensions. The root is unnamed; any other scanner is named by the base name of its path |
| ZoteroFolderImport.ChildScannerName | content/zotero-folder-import.ts:71-80 | the scanner created for a directory entry is named after that entry |
| ZoteroFolderImport.NewChildren | content/zotero-folder-import.ts:80 | one new scanner per directory entry |
| ZoteroFolderImport.NewChildrenAt | content/zotero-folder-import.ts:80 | the k-th new scanner is at `join(path, name)` of the k-th directory entry |
| ZoteroFolderImport.NewChildrenSnoc | content/zotero-folder-import.ts:80 | a directory entry pushes exactly one new scanner |
| ZoteroFolderImport.Enumerate | content/zotero-folder-import.ts:75-90 | the enumeration records every file path in listing order, the keys of the files, and one fresh child scanner per directory entry, in order |
| ZoteroFolderImport.AddChildExtensions | content/zotero-folder-import.ts:93-95 | the loop adds exactly the union of the children's extensions |
| ZoteroFolderImport.Scan | content/zotero-folder-import.ts:74-96 | `scan()` yields the scanner tree `Scanned` describes, or fails exactly when some directory of the subtree cannot be enumerated |
| ZoteroFolderImport.ScanDirsStep | content/zotero-folder-import.ts:92 | scanning the children from the k-th on fails when the k-th fails, and otherwise is the k-th followed by the others |
| ZoteroFolderImport.ScanChildren | content/zotero-folder-import.ts:92 | the children's scans, one after another, give what `ScanDirs` describes, failing when one fails |
| ZoteroFolderImport.Selected | content/zotero-folder-import.ts:98-105 | `selected(extensions)` is the number of files in the subtree whose raw extension is selected |
| ZoteroFolderImport.Import | content/zotero-folder-import.ts:107-169 | `import` changes the library, `pdfs` and `status.done` exactly as `ImportNode` says, and leaves `status.total` alone. The scanner returned is the same tree with its files sorted in every unpruned node |
| ZoteroFolderImport.FindOrCreate | content/zotero-folder-import.ts:113-133 | the collection used, and the collections afterwards, are what `Reconcile` gives; items are untouched |
| ZoteroFolderImport.ImportFileList | content/zotero-folder-import.ts:136-164 | the file loop does what `ImportFiles` says |
| ZoteroFolderImport.AttachFile | content/zotero-folder-import.ts:139-163 | one selected file does what `FileStep` says: link or copy, the `.lnk` skip, the PDF push, the swallowed error and the progress update |
| ZoteroFolderImport.ImportChildren | content/zotero-folder-import.ts:166-168 | the children are imported in order under the node's collection, as `ImportFolders` says. Each comes back sorted |
| ZoteroFolderImport.Chosen | content/zotero-folder-import.ts:243-249 | the extensions left after the dialog are among the root's extensions, namely those the user kept |
| ZoteroFolderImport.FolderImport.constructor | content/zotero-folder-import.ts:181 | the status starts as 0 of 0 |
| ZoteroFolderImport.FolderImport.Update | content/zotero-folder-import.ts:205-206 | `update()` advances `status.done` by one and leaves `total` alone |
| ZoteroFolderImport.FolderImport.AddAttachmentsFromFolder | content/zotero-folder-import.ts:234-262 | a run fails with the scan, stops when no extension was found or none was kept, and otherwise imports into the selected collection. Links are used outside groups and "My Publications". When no collection save or load throws, the library and `pdfs` end as `ImportNode` says, `status.total` is `selected(extensions)`, and `status.done == status.total` at the end |

## Left out

- The folder picker (`FilePicker`, lines 23-58 and 228-231) is left out: it is user interaction. The picked folder is a parameter.
- The extension dialog (line 248) is left out: it is user interaction. The set of extensions the user keeps is a parameter.
- The `canEdit` and `canEditFiles` checks (lines 219-226) are left out: they gate the run before anything the core does.
- `load` (lines 184-203), menu insertion and `initialized` are left out: they are UI set-up.
- The progress meter and its messages are left out. This covers `showZoteroPaneProgressMeter`, `hideZoteroPaneOverlays`, the percentage in `update()` (a float) and the `padStart` message. Only `status` is modelled.
- `sleep(10)` and `debug` are left out: they have no effect the model observes. A successful `loadAllData()` (line 134) has none either; a failing one is covered below.
- `Zotero.RecognizePDF.autoRecognizeItems` (line 257) is left out: it is fire-and-forget. The PDFs handed to it are the `pdfs` of the `Finished` outcome.
- `Zotero.Schema.schemaUpdatePromise` (line 217) is left out: it is a wait with no observable effect.
- Directory I/O (`OS.File.DirectoryIterator`) is a `Listing` value given in advance. A directory that cannot be enumerated is `Unreadable`, and the scan fails.
- The concurrency of `Promise.all` (line 92) is not modelled: the children are scanned one after another, and the first failure ends the scan. Every child's scan only writes its own scanner, so the outcome does not depend on the order.
- The attach calls are modelled by a fixed set of files (`Library.failing`) whose call throws. The contents of the created items are not modelled, nor is any other cause of a failing attach call.
- The store lists collections in creation order. `getChildCollections` and `getByLibrary` are modelled as filters over that list, so `find` returns the first collection created with the name.
- `toLowerCase` is modelled for ASCII letters only.
- Sorting.Sort: compares strings by code point, while JavaScript's `sort()` (line 136) compares UTF-16 code units. The two orders agree only when no file path contains a character above U+FFFF: JavaScript stores such a character as a surrogate pair starting with 0xD800-0xDBFF, so it sorts before a character in U+E000-U+FFFF, where the model sorts it after. For such names the model's attach order and `pdfs` order can differ from the plugin's.
- `OS.Path.join` and `OS.Path.basename` follow Unix paths with `/` as separator.
- Scanners are values, not shared objects. `scan`, `selected` and `import` take a scanner and return it, so object identity and aliasing between scanners are not captured. The in-place `this.files.sort()` is modelled by the returned scanner, whose files are sorted.
- The dialog narrows `params.extensions`, which is the same set object as `root.extensions`. The model passes the narrowed set as `params.extensions` and leaves the root's set as scanned. The root's pruning test gives the same answer either way.
- `status` is declared without an initial value. The model's constructor starts it at 0 of 0.
- ZoteroFolderImport.FolderImport.AddAttachmentsFromFolder: does not model a throw from `collection.saveTx()` (line 128) or `collection.loadAllData()` (line 134). Nothing in the source catches one. It would end the whole run at that point, and `autoRecognizeItems` would not be called. What was created before the throw stays: that may be nothing, as when the root's `loadAllData()` throws first, or some collections and items. `status.done` stays below `status.total` exactly when a selected file remained unhandled, which need not be the case: the throwing directory's subtree may hold no selected file. The model treats both calls as always succeeding (`Store.Library.CreateCollection` never fails), so its `done == total` and its final state are stated only for runs in which they succeed.
- The store is not required to be one Zotero could hold: a collection's parent key may point past the existing collections, and the selected collection need not exist. The lemmas hold for every store; on such a store a newly created collection can find a dangling child as an existing match, which a freshly saved Zotero collection never has.
- Scan: stated for a scanner as the constructor leaves it (no files, folders or extensions), which is the only state the plugin scans from.
