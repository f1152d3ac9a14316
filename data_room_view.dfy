/** The data-room page (components/DataRoomView.tsx): the drag-and-drop
    handler with its guard against moving a folder below itself, the PDF-only
    upload loop and the choice of the items on display. */
module View {

  import opened Wrappers
  import opened Text
  import opened Items
  import opened Hierarchy
  import opened Backend
  import opened DataRoom

  const CyclicMoveMessage: string := "Cannot move a folder into its own subfolder"
  const PdfOnlyMessage: string := "Only PDF files are supported"
  const PdfType: string := "application/pdf"

  /** An unresolved reference other than `a` has no ancestor `a`. */
  lemma UnresolvedNotAncestor(items: seq<Item>, a: Id, q: Id)
    requires q != a && Find(items, q).None?
    ensures !IsAncestorRef(items, a, Some(q))
  {
    forall n: nat ensures !AncestorWithin(items, a, Some(q), n) {
    }
  }

  /** `isDescendant(parentId, childId)`: walks up from the item `childId`,
      comparing each parent reference with `parentId` before looking it up.
      It answers whether `parentId` lies strictly above that item; a missing
      item or a root gives false. The walk ends because the list is acyclic. */
  method IsDescendant(items: seq<Item>, parentId: Id, childId: Id) returns (r: bool)
    requires Acyclic(items)
    ensures r <==> Find(items, childId).Some? && Above(items, parentId, Find(items, childId).value)
  {
    var current := Find(items, childId);
    ghost var n: nat := 0;
    if current.Some? {
      assert Rooted(items, current.value.parentId);
      n :| EndsWithin(items, current.value.parentId, n);
    }
    while current.Some? && current.value.parentId.Some?
      invariant current.Some? ==> current.value in items && EndsWithin(items, current.value.parentId, n)
      invariant (Find(items, childId).Some? && Above(items, parentId, Find(items, childId).value)) <==>
                (current.Some? && Above(items, parentId, current.value))
      decreases if current.Some? then n + 1 else 0
    {
      var q := current.value.parentId.value;
      if q == parentId {
        assert AncestorWithin(items, parentId, current.value.parentId, 0);
        return true;
      }
      var next := Find(items, q);
      if next.Some? {
        AncestorStep(items, parentId, q);
        n := n - 1;
      } else {
        UnresolvedNotAncestor(items, parentId, q);
      }
      current := next;
    }
    r := false;
  }

  /** The case `handleDrop` refuses: a folder found in the list dropped onto a
      folder found below it. */
  ghost predicate Rejects(items: seq<Item>, d: Id, t: Option<Id>) {
    Find(items, d).Some? && Find(items, d).value.Folder? && t.Some? &&
    Find(items, t.value).Some? && Above(items, d, Find(items, t.value).value)
  }

  /** The guard walks the parent chain only for a folder found in the list
      dropped onto a folder id: the type test comes first and short-circuits. */
  predicate GuardWalks(items: seq<Item>, d: Id, t: Option<Id>) {
    Find(items, d).Some? && Find(items, d).value.Folder? && t.Some?
  }

  /** The guard of `handleDrop`: the dragged item is looked up in the list
      and, when it is a folder and the target a folder found below it, the
      drop is refused. Only a folder drop walks the parent chain, so only
      then does the list have to be acyclic. */
  method CyclicDrop(items: seq<Item>, d: Id, t: Option<Id>) returns (r: bool)
    requires GuardWalks(items, d, t) ==> Acyclic(items)
    ensures r <==> Rejects(items, d, t)
  {
    var data := Find(items, d);
    r := false;
    if data.Some? && t.Some? && data.value.Folder? {
      r := IsDescendant(items, d, t.value);
    }
  }

  /** A file that no item names as its parent is above nothing. */
  lemma {:induction false} FileNotAncestor(items: seq<Item>, d: Id, p: Option<Id>, n: nat)
    requires FilesAreLeaves(items) && Find(items, d).Some? && Find(items, d).value.File?
    requires p != Some(d)
    ensures !AncestorWithin(items, d, p, n)
    decreases n
  {
    if p.Some? && n > 0 && Find(items, p.value).Some? {
      var y := Find(items, p.value).value;
      FileNotAncestor(items, d, y.parentId, n - 1);
    }
  }

  /** For a folder found in the list and a different target, the guard refuses
      exactly the moves that would put the folder below itself. */
  lemma GuardExact(items: seq<Item>, d: Id, t: Option<Id>)
    requires Find(items, d).Some? && Find(items, d).value.Folder? && t != Some(d)
    ensures Rejects(items, d, t) <==> IsAncestorRef(items, d, t)
  {
    if t.Some? {
      if Find(items, t.value).Some? {
        AncestorStep(items, d, t.value);
      } else {
        UnresolvedNotAncestor(items, d, t.value);
      }
    }
  }

  /** Every drop `handleDrop` lets through, applied by the backend's
      `moveItem`, keeps the parent graph of a list whose files are leaves
      acyclic: drops onto the root, drops of files (which then head no
      subtree) and drops of ids the list lacks included. */
  lemma DropKeepsAcyclic(items: seq<Item>, d: Id, t: Option<Id>, now: string)
    requires Acyclic(items) && FilesAreLeaves(items)
    requires t != Some(d) && !Rejects(items, d, t)
    ensures Acyclic(Moved(items, d, t, now))
  {
    if Find(items, d).Some? {
      if Find(items, d).value.Folder? {
        GuardExact(items, d, t);
      } else {
        forall n: nat ensures !AncestorWithin(items, d, t, n) {
          FileNotAncestor(items, d, t, n);
        }
      }
      MoveAcyclic(items, d, t, now);
    }
  }

  /** Files at the leaves are needed: the guard skips files, so a root file
      dropped onto a folder that names the file as its parent is let through,
      and the move closes a cycle in a list that had none. */
  lemma {:induction false} FileDropNeedsLeaves(f: Item, g: Item, now: string)
    requires f.File? && f.parentId.None? && g.Folder? && g.parentId == Some(f.id) && f.id != g.id
    ensures Acyclic([f, g]) && !FilesAreLeaves([f, g])
    ensures !Rejects([f, g], f.id, Some(g.id))
    ensures !Acyclic(Moved([f, g], f.id, Some(g.id), now))
  {
    var items := [f, g];
    assert EndsWithin(items, f.parentId, 0);
    assert EndsWithin(items, g.parentId, 1);
    assert Acyclic(items) by {
      forall x | x in items ensures Rooted(items, x.parentId) {
        if x == f { assert EndsWithin(items, x.parentId, 0); }
        else { assert EndsWithin(items, x.parentId, 1); }
      }
    }
    assert Find(items, g.parentId.value) == Some(f);
    var r := Moved(items, f.id, Some(g.id), now);
    var f' := f.(parentId := Some(g.id), updatedAt := now);
    assert r == [f', g];
    assert AncestorWithin(r, f.id, Some(f.id), 0);
    assert Find(r, g.id) == Some(g);
    assert Above(r, f'.id, f') by {
      assert AncestorWithin(r, f.id, f'.parentId, 1);
    }
    assert !Acyclic(r) by {
      if Acyclic(r) {
        NoSelf(r, f');
        assert false;
      }
    }
  }

  /** A drop `handleDrop` lets through, judged on a client list `c` that
      holds the dragged item and the target with all their ancestors, is
      judged as the backend's list `b` would judge it: unless the backend
      lacks the item, the target is not below it, and the move keeps `b`
      acyclic. */
  lemma DropFromPart(b: seq<Item>, c: seq<Item>, d: Id, t: Option<Id>, now: string)
    requires ClosedPart(b, c) && FilesAreLeaves(b) && Shown(b, c, Some(d)) && Shown(b, c, t)
    requires t != Some(d) && !Rejects(c, d, t)
    ensures Find(b, d).None? || !IsAncestorRef(b, d, t)
    ensures Acyclic(Moved(b, d, t, now))
  {
    if Find(b, d).Some? {
      ShownFind(b, c, d);
      if Find(b, d).value.Folder? {
        GuardExact(c, d, t);
        PartAncestorRef(b, c, d, t);
      } else {
        forall n: nat ensures !AncestorWithin(b, d, t, n) {
          FileNotAncestor(b, d, t, n);
        }
      }
      MoveAcyclic(b, d, t, now);
    }
  }

  /** `displayItems`: the search results for a non-empty query, else the open
      folder's items. The non-empty test adds nothing to `searchItems`, which
      already falls back to the open folder for a blank query. */
  function DisplayItems(st: RoomState, query: string): (r: seq<Item>)
    ensures r == SearchItems(st, query)
    ensures IsBlank(query) ==> r == CurrentItems(st)
    ensures !IsBlank(query) ==> forall x :: x in r <==> x in st.items && NameMatches(x, query)
  {
    if query != [] then SearchItems(st, query) else CurrentItems(st)
  }

  /** The id a drop carries: the drag payload when non-empty, else the item
      recorded when the drag started. */
  function DraggedId(transferData: string, draggedItem: Option<Id>): (r: Option<Id>)
    ensures transferData != [] ==> r == Some(transferData)
    ensures transferData == [] ==> r == draggedItem
  {
    if transferData != [] then Some(transferData) else draggedItem
  }

  /** The first `k` files are PDFs and, unless all are, file `k` is not. */
  predicate PdfPrefix(files: seq<LocalFile>, k: nat) {
    k <= |files| && (forall j :: 0 <= j < k ==> files[j].mimeType == PdfType) &&
    (k < |files| ==> files[k].mimeType != PdfType)
  }

  /** `f` is the item `uploadFile` makes of `file` under the id `id` in the
      folder `parent`. */
  predicate UploadOf(f: Item, file: LocalFile, id: Id, parent: Option<Id>) {
    f.File? && f.id == id && f.name == file.name && f.parentId == parent &&
    f.size == file.size && f.mimeType == file.mimeType
  }

  /** The items appended from position `base` on are uploads of `files`, in order. */
  predicate UploadedAt(items: seq<Item>, base: nat, files: seq<LocalFile>, ids: seq<Id>, parent: Option<Id>) {
    |items| == base + |files| && |ids| >= |files| &&
    forall j :: 0 <= j < |files| ==> UploadOf(items[base + j], files[j], ids[j], parent)
  }

  /** One more upload appended extends the uploaded prefix by one file. */
  lemma UploadedAppend(items: seq<Item>, base: nat, files: seq<LocalFile>, i: nat, ids: seq<Id>,
                       parent: Option<Id>, f: Item)
    requires i < |files| && |ids| == |files| && UploadedAt(items, base, files[..i], ids, parent)
    requires UploadOf(f, files[i], ids[i], parent)
    ensures UploadedAt(items + [f], base, files[..i + 1], ids, parent)
  {
    var items' := items + [f];
    forall j | 0 <= j < i + 1 ensures UploadOf(items'[base + j], files[..i + 1][j], ids[j], parent) {
      if j < i {
        assert items'[base + j] == items[base + j];
        assert files[..i][j] == files[..i + 1][j];
      } else {
        assert items'[base + j] == f && files[..i + 1][j] == files[i];
      }
    }
  }

  /** Each of `ids` is unused, named by no item as parent, is not the open
      folder, and differs from the others: freshly generated ids. */
  predicate FreshIds(items: seq<Item>, open: Option<Id>, ids: seq<Id>) {
    (forall j :: 0 <= j < |ids| ==> Fresh(items, ids[j]) && open != Some(ids[j])) &&
    (forall i, j :: 0 <= i < j < |ids| ==> ids[i] != ids[j])
  }

  /** Appending an upload with the first fresh id keeps the rest fresh. */
  lemma FreshIdsAfterUpload(items: seq<Item>, open: Option<Id>, ids: seq<Id>, f: Item)
    requires FreshIds(items, open, ids) && |ids| > 0 && f.id == ids[0] && f.parentId == open
    ensures FreshIds(items + [f], open, ids[1..])
  {
    forall j | 0 <= j < |ids| - 1 ensures Fresh(items + [f], ids[1..][j]) {
      assert ids[1..][j] == ids[j + 1];
      assert ids[0] != ids[j + 1];
    }
  }

  /** The state of `handleFileUpload` after its first `i` files: all were
      PDFs and were uploaded in order after `base`, and the remaining ids are
      still fresh. */
  predicate Uploading(items: seq<Item>, base: seq<Item>, files: seq<LocalFile>, ids: seq<Id>,
                      open: Option<Id>, i: nat) {
    i <= |files| && |ids| == |files| && (forall j :: 0 <= j < i ==> files[j].mimeType == PdfType) &&
    UploadedAt(items, |base|, files[..i], ids, open) && items[..|base|] == base &&
    FreshIds(items, open, ids[i..])
  }

  /** The next file's id is fresh. */
  lemma UploadingFresh(items: seq<Item>, base: seq<Item>, files: seq<LocalFile>, ids: seq<Id>,
                       open: Option<Id>, i: nat)
    requires Uploading(items, base, files, ids, open, i) && i < |files|
    ensures Fresh(items, ids[i]) && open != Some(ids[i])
  {
    assert ids[i..][0] == ids[i];
  }

  /** Uploading the next file, a PDF, with its fresh id into the open folder
      advances the upload by one file. */
  lemma UploadingStep(items: seq<Item>, after: seq<Item>, base: seq<Item>, files: seq<LocalFile>,
                      ids: seq<Id>, open: Option<Id>, i: nat)
    requires Uploading(items, base, files, ids, open, i) && i < |files| && files[i].mimeType == PdfType
    requires |after| == |items| + 1 && after[..|items|] == items
    requires UploadOf(after[|items|], files[i], ids[i], open)
    ensures Uploading(after, base, files, ids, open, i + 1)
    ensures after[|base|..] == items[|base|..] + [after[|items|]]
  {
    var f := after[|items|];
    assert after == items + [f];
    assert ids[i..][0] == ids[i];
    FreshIdsAfterUpload(items, open, ids[i..], f);
    UploadedAppend(items, |base|, files, i, ids, open, f);
    assert ids[i..][1..] == ids[i + 1..];
    assert files[..i + 1][..i] == files[..i];
    assert after[..|base|] == items[..|base|];
  }

  /** The page's own state and the provider it uses. */
  class DataRoomView {
    var error: string
    var draggedItem: Option<Id>
    var dragOverFolder: Option<Id>
    const provider: DataRoomProvider

    constructor (p: DataRoomProvider)
      ensures provider == p && error == [] && draggedItem == None && dragOverFolder == None
    {
      provider := p;
      error := [];
      draggedItem := None;
      dragOverFolder := None;
    }

    /** `handleDragStart`: records the dragged item. */
    method HandleDragStart(itemId: Id)
      modifies this`draggedItem
      ensures draggedItem == Some(itemId)
    {
      draggedItem := Some(itemId);
    }

    /** `handleDrop(e, targetFolderId)`. A drop without an id, or onto the
        dragged item itself, moves nothing. A folder dropped below itself sets
        the error, forgets the dragged item and returns early (the highlighted
        folder stays). Anything else goes to `moveItem` and clears the error. */
    method HandleDrop(transferData: string, target: Option<Id>, now: string)
      requires var d := DraggedId(transferData, draggedItem);
        d.Some? && d != target && GuardWalks(provider.state.items, d.value, target) ==>
        Acyclic(provider.state.items)
      requires provider.backend.Valid()
      modifies this`error, this`draggedItem, this`dragOverFolder, provider`state, provider.backend`items
      ensures var d := DraggedId(transferData, old(draggedItem));
        var items := old(provider.state.items);
        if d.None? || d == target then
          error == old(error) && draggedItem == None && dragOverFolder == None &&
          provider.state == old(provider.state) && provider.backend.items == old(provider.backend.items)
        else if Rejects(items, d.value, target) then
          error == CyclicMoveMessage && draggedItem == None && dragOverFolder == old(dragOverFolder) &&
          provider.state == old(provider.state) && provider.backend.items == old(provider.backend.items)
        else
          error == [] && draggedItem == None && dragOverFolder == None &&
          provider.backend.items == Moved(old(provider.backend.items), d.value, target, now) &&
          provider.state == if Find(old(provider.backend.items), d.value).None? then old(provider.state)
            else old(provider.state).(items := Replaced(items,
              Find(old(provider.backend.items), d.value).value.(parentId := target, updatedAt := now)))
      ensures provider.backend.Valid()
      ensures old(provider.Synced()) ==> provider.Synced()
      ensures old(provider.Synced()) && Acyclic(old(provider.backend.items)) &&
              FilesAreLeaves(old(provider.backend.items)) ==>
        Acyclic(provider.backend.items)
      ensures var d := DraggedId(transferData, old(draggedItem));
        var b, c := old(provider.backend.items), old(provider.state.items);
        (old(provider.Coherent()) && Shown(b, c, d) && Shown(b, c, target) && FolderRef(b, target)) ==>
        Acyclic(provider.backend.items) && provider.Coherent()
    {
      var dragged := DraggedId(transferData, draggedItem);
      if dragged.Some? && dragged != target {
        var d := dragged.value;
        var refused := CyclicDrop(provider.state.items, d, target);
        if refused {
          error := CyclicMoveMessage;
          draggedItem := None;
          return;
        }
        ghost var before := provider.backend.items;
        if provider.Synced() && Acyclic(before) && FilesAreLeaves(before) {
          DropKeepsAcyclic(before, d, target, now);
        }
        if provider.Coherent() && Shown(before, provider.state.items, dragged) &&
           Shown(before, provider.state.items, target) {
          DropFromPart(before, provider.state.items, d, target, now);
        }
        var _ := provider.MoveItem(d, target, now);
        error := [];
      }
      draggedItem := None;
      dragOverFolder := None;
    }

    /** `handleFileUpload(files)`: clears the error, then uploads the files
        in order into the open folder, stopping with "Only PDF files are
        supported" at the first file that is not a PDF. The files before it
        stay uploaded. */
    method HandleFileUpload(files: seq<LocalFile>, ids: seq<Id>, urlIds: seq<string>,
                            thumbnailIds: seq<string>, now: string) returns (uploaded: nat)
      requires |ids| == |files| && |urlIds| == |files| && |thumbnailIds| == |files|
      requires provider.backend.Valid()
      requires FreshIds(provider.backend.items, provider.state.currentFolderId, ids)
      modifies this`error, provider`state, provider.backend`items
      ensures PdfPrefix(files, uploaded)
      ensures error == (if uploaded < |files| then PdfOnlyMessage else [])
      ensures UploadedAt(provider.backend.items, |old(provider.backend.items)|, files[..uploaded], ids,
                         old(provider.state.currentFolderId))
      ensures provider.backend.items[..|old(provider.backend.items)|] == old(provider.backend.items)
      ensures provider.state ==
        old(provider.state).(items := old(provider.state.items) + provider.backend.items[|old(provider.backend.items)|..])
      ensures provider.backend.Valid()
      ensures old(provider.Synced()) ==> provider.Synced()
      ensures old(provider.Coherent()) ==> provider.Coherent()
    {
      error := [];
      ghost var base := provider.backend.items;
      ghost var synced := provider.Synced();
      ghost var coherent := provider.Coherent();
      ghost var st := provider.state;
      var open := provider.state.currentFolderId;
      var i := 0;
      while i < |files|
        invariant Uploading(provider.backend.items, base, files, ids, open, i)
        invariant provider.backend.Valid() && provider.state.currentFolderId == open
        invariant error == []
        invariant synced ==> provider.Synced()
        invariant coherent ==> provider.Coherent()
        invariant provider.state == st.(items := st.items + provider.backend.items[|base|..])
      {
        if files[i].mimeType != PdfType {
          error := PdfOnlyMessage;
          return i;
        }
        ghost var items := provider.backend.items;
        UploadingFresh(items, base, files, ids, open, i);
        provider.UploadFile(files[i], files[i].name, ids[i], urlIds[i], thumbnailIds[i], now);
        UploadingStep(items, provider.backend.items, base, files, ids, open, i);
        i := i + 1;
      }
      assert files[..i] == files;
      uploaded := i;
    }
  }
}
