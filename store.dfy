/**
 * The external stores the importer talks to, reduced to what it observes:
 * the library's collection hierarchy (`Zotero.Collection`, `getChildCollections`,
 * `Zotero.Collections.getByLibrary`, `saveTx`), the attachment primitives
 * (`Zotero.Attachments.linkFromFile` / `importFromFile`) and the `pdfs` array
 * the caller hands down.
 */
module Store {
  import opened Wrappers

  /** A collection; its key is its position in the store. */
  datatype Collection = Collection(name: string, libraryID: int, parent: Option<nat>)

  /** An attachment item created by the importer. */
  datatype Attachment =
    | Linked(file: string, collection: Option<nat>)
    | Imported(file: string, libraryID: int, collection: Option<nat>)

  /**
   * Whether `c` is listed where the importer looks for an existing collection:
   * among the children of `parent`, or among the library's top-level
   * collections when there is no parent.
   */
  predicate IsChild(c: Collection, parent: Option<nat>, libraryID: int)
  {
    match parent
    case Some(_) => c.parent == parent
    case None => c.parent.None? && c.libraryID == libraryID
  }

  /** A collection the lookup for `name` under `parent` accepts. */
  predicate Matches(c: Collection, parent: Option<nat>, libraryID: int, name: string)
  {
    IsChild(c, parent, libraryID) && c.name == name
  }

  /** The first collection at or after position `from` that the lookup accepts. */
  function FindFrom(cols: seq<Collection>, from: nat, parent: Option<nat>, libraryID: int, name: string): (r: Option<nat>)
    requires from <= |cols|
    ensures r.Some? ==> from <= r.value < |cols| && Matches(cols[r.value], parent, libraryID, name)
    ensures r.Some? ==> forall j :: from <= j < r.value ==> !Matches(cols[j], parent, libraryID, name)
    ensures r.None? ==> forall j :: from <= j < |cols| ==> !Matches(cols[j], parent, libraryID, name)
    decreases |cols| - from
  {
    if from == |cols| then None
    else if Matches(cols[from], parent, libraryID, name) then Some(from)
    else FindFrom(cols, from + 1, parent, libraryID, name)
  }

  /** `(...).find(child => child.name === name)`: the first accepted collection. */
  function FindChild(cols: seq<Collection>, parent: Option<nat>, libraryID: int, name: string): (r: Option<nat>)
    ensures r.Some? ==> r.value < |cols| && Matches(cols[r.value], parent, libraryID, name)
    ensures r.Some? ==> forall j :: 0 <= j < r.value ==> !Matches(cols[j], parent, libraryID, name)
    ensures r.None? ==> forall j :: 0 <= j < |cols| ==> !Matches(cols[j], parent, libraryID, name)
  {
    FindFrom(cols, 0, parent, libraryID, name)
  }

  /** Adding collections never changes which existing collection a lookup finds. */
  lemma FindChildStable(cols: seq<Collection>, more: seq<Collection>, parent: Option<nat>, libraryID: int, name: string)
    requires FindChild(cols, parent, libraryID, name).Some?
    ensures FindChild(cols + more, parent, libraryID, name) == FindChild(cols, parent, libraryID, name)
  {
    var r := FindChild(cols, parent, libraryID, name);
    assert forall j :: 0 <= j <= r.value ==> (cols + more)[j] == cols[j];
  }

  /** A collection created because the lookup failed is what the next lookup finds. */
  lemma FindChildCreated(cols: seq<Collection>, parent: Option<nat>, libraryID: int, name: string)
    requires FindChild(cols, parent, libraryID, name).None?
    ensures FindChild(cols + [Collection(name, libraryID, parent)], parent, libraryID, name) == Some(|cols|)
  {
    var cols' := cols + [Collection(name, libraryID, parent)];
    assert Matches(cols'[|cols|], parent, libraryID, name);
    assert forall j :: 0 <= j < |cols| ==> cols'[j] == cols[j];
  }

  /** The library: its collections and the attachment items in it. */
  class Library {
    var collections: seq<Collection>
    var attachments: seq<Attachment>
    /** Files whose attach or copy call throws; the outcome of each call is not otherwise modelled. */
    const failing: set<string>

    constructor (collections: seq<Collection>, attachments: seq<Attachment>, failing: set<string>)
      ensures this.collections == collections && this.attachments == attachments
      ensures this.failing == failing
    {
      this.collections := collections;
      this.attachments := attachments;
      this.failing := failing;
    }

    /** `new Zotero.Collection` with name, library and parent key, then `saveTx()`. */
    method CreateCollection(name: string, libraryID: int, parent: Option<nat>) returns (key: nat)
      modifies this
      ensures collections == old(collections) + [Collection(name, libraryID, parent)]
      ensures key == |old(collections)|
      ensures attachments == old(attachments)
    {
      key := |collections|;
      collections := collections + [Collection(name, libraryID, parent)];
    }

    /** `Zotero.Attachments.linkFromFile`: `ok` is false when the call throws. */
    method LinkFromFile(file: string, collection: Option<nat>) returns (ok: bool)
      modifies this
      ensures ok == (file !in failing)
      ensures attachments == if ok then old(attachments) + [Linked(file, collection)] else old(attachments)
      ensures collections == old(collections)
    {
      ok := file !in failing;
      if ok {
        attachments := attachments + [Linked(file, collection)];
      }
    }

    /** `Zotero.Attachments.importFromFile`: the new item's key, or nothing when the call throws. */
    method ImportFromFile(file: string, libraryID: int, collection: Option<nat>) returns (item: Option<nat>)
      modifies this
      ensures item == if file in failing then None else Some(|old(attachments)|)
      ensures attachments == if item.None? then old(attachments) else old(attachments) + [Imported(file, libraryID, collection)]
      ensures collections == old(collections)
    {
      if file in failing {
        item := None;
      } else {
        item := Some(|attachments|);
        attachments := attachments + [Imported(file, libraryID, collection)];
      }
    }
  }

  /** The `pdfs` array the walk pushes imported PDF items onto. */
  class PdfList {
    var items: seq<nat>

    constructor ()
      ensures items == []
    {
      items := [];
    }

    method Push(item: nat)
      modifies this
      ensures items == old(items) + [item]
    {
      items := items + [item];
    }
  }
}
