/** The client-side data-room state (hooks/useDataRoom.tsx): a reducer over
    the item list, the open folder and a loading flag, and the provider whose
    operations call the mock backend and dispatch the matching actions. */
module DataRoom {

  import opened Wrappers
  import opened Seqs
  import opened Text
  import opened Items
  import opened Hierarchy
  import opened Backend

  datatype RoomState = RoomState(items: seq<Item>, currentFolderId: Option<Id>, isLoading: bool)

  datatype Action =
    | SetItems(items: seq<Item>)
    | SetCurrentFolder(folderId: Option<Id>)
    | AddItem(item: Item)
    | UpdateItem(item: Item)
    | RemoveItem(id: Id)
    | SetLoading(loading: bool)

  /** No items, the root folder open, not loading. */
  function InitialRoom(): RoomState {
    RoomState([], None, false)
  }

  /** `items.map(item => item.id === p.id ? p : item)`: every item carrying the
      payload's id is replaced by the payload, the others stay in place. */
  function Replaced(items: seq<Item>, p: Item): (r: seq<Item>)
    ensures |r| == |items|
    ensures forall i :: 0 <= i < |r| ==> r[i].id == items[i].id
    ensures forall i :: 0 <= i < |r| ==> r[i] == items[i] || r[i] == p
    ensures forall x :: x in r && x != p ==> x in items
    ensures forall i :: 0 <= i < |r| && items[i].id == p.id ==> r[i] == p
    ensures forall i :: 0 <= i < |r| && items[i].id != p.id ==> r[i] == items[i]
  {
    seq(|items|, i requires 0 <= i < |items| => if items[i].id == p.id then p else items[i])
  }

  /** `dataRoomReducer`: each action changes only its own part of the state. */
  function Reduce(st: RoomState, a: Action): (r: RoomState)
    ensures !a.SetCurrentFolder? ==> r.currentFolderId == st.currentFolderId
    ensures !(a.SetItems? || a.SetLoading?) ==> r.isLoading == st.isLoading
    ensures (a.SetCurrentFolder? || a.SetLoading?) ==> r.items == st.items
    ensures a.SetItems? ==> r.items == a.items && !r.isLoading
    ensures a.SetCurrentFolder? ==> r.currentFolderId == a.folderId
    ensures a.AddItem? ==> r.items == st.items + [a.item]
    ensures a.UpdateItem? ==> r.items == Replaced(st.items, a.item)
    ensures a.UpdateItem? ==> (forall x :: x in st.items && x.id != a.item.id ==> x in r.items) &&
                              (forall x :: x in r.items ==> x == a.item || x in st.items)
    ensures a.UpdateItem? && (forall x :: x in st.items ==> x.id != a.item.id) ==> r.items == st.items
    ensures a.RemoveItem? ==> (forall x :: x in r.items <==> x in st.items && x.id != a.id) &&
                              (forall x :: multiset(r.items)[x] == if x.id != a.id then multiset(st.items)[x] else 0) &&
                              IsSubsequence(r.items, st.items)
    ensures a.SetLoading? ==> r.isLoading == a.loading
  {
    match a
    case SetItems(items) => st.(items := items, isLoading := false)
    case SetCurrentFolder(f) => st.(currentFolderId := f)
    case AddItem(x) => st.(items := st.items + [x])
    case UpdateItem(p) =>
      var r := Replaced(st.items, p);
      assert (forall x :: x in st.items ==> x.id != p.id) ==> r == st.items;
      assert forall x :: x in st.items && x.id != p.id ==> x in r by {
        forall x | x in st.items && x.id != p.id ensures x in r {
          var i :| 0 <= i < |st.items| && st.items[i] == x;
          assert r[i] == x;
        }
      }
      st.(items := r)
    case RemoveItem(id) => st.(items := WithoutId(st.items, id))
    case SetLoading(b) => st.(isLoading := b)
  }

  /** `currentItems`: the items whose parent is the open folder, in stored order. */
  function CurrentItems(st: RoomState): (r: seq<Item>)
    ensures forall x {:trigger x in r} :: x in r <==> x in st.items && x.parentId == st.currentFolderId
    ensures forall x :: multiset(r)[x] == if x.parentId == st.currentFolderId then multiset(st.items)[x] else 0
    ensures IsSubsequence(r, st.items)
  {
    ChildrenOf(st.items, st.currentFolderId)
  }

  /** `searchItems(query)`: a blank query gives the open folder's items; any
      other query gives the items of every folder whose name contains it,
      ignoring case. */
  function SearchItems(st: RoomState, query: string): (r: seq<Item>)
    ensures IsBlank(query) ==> r == CurrentItems(st)
    ensures !IsBlank(query) ==> forall x :: x in r <==> x in st.items && NameMatches(x, query)
    ensures !IsBlank(query) ==>
      forall x :: multiset(r)[x] == if NameMatches(x, query) then multiset(st.items)[x] else 0
    ensures IsSubsequence(r, st.items)
  {
    if Trim(query) == [] then CurrentItems(st) else MatchingItems(st.items, query)
  }

  /** The test "id not among `ids`". */
  function NotIn(ids: seq<Id>): Item -> bool {
    (x: Item) => x.id !in ids
  }

  /** The list after `REMOVE_ITEM` has been dispatched for each of `ids`. */
  function WithoutIds(items: seq<Item>, ids: seq<Id>): (r: seq<Item>)
    ensures forall x :: x in r <==> x in items && x.id !in ids
    ensures forall x :: multiset(r)[x] == if x.id !in ids then multiset(items)[x] else 0
    ensures IsSubsequence(r, items)
  {
    Filter(items, NotIn(ids))
  }

  /** Removing no id changes nothing. */
  lemma WithoutNoIds(items: seq<Item>)
    ensures WithoutIds(items, []) == items
  {
    FilterKeepsAll(items, NotIn([]));
  }

  /** Removing the ids of `a` and then those of `b` removes the ids of `a + b`. */
  lemma WithoutIdsAppend(items: seq<Item>, a: seq<Id>, b: seq<Id>)
    ensures WithoutIds(WithoutIds(items, a), b) == WithoutIds(items, a + b)
  {
    FilterFilter(items, NotIn(a), NotIn(b), NotIn(a + b));
  }

  /** One more `REMOVE_ITEM` extends the removed ids by one. */
  lemma WithoutIdsStep(items: seq<Item>, a: seq<Id>, id: Id)
    ensures WithoutId(WithoutIds(items, a), id) == WithoutIds(items, a + [id])
  {
    FilterFilter(items, NotIn(a), OtherId(id), NotIn(a + [id]));
  }

  /** Dispatching `REMOVE_ITEM` twice for the same id is dispatching it once. */
  lemma RemoveIdempotent(st: RoomState, id: Id)
    ensures Reduce(Reduce(st, RemoveItem(id)), RemoveItem(id)) == Reduce(st, RemoveItem(id))
  {
    var once := Reduce(st, RemoveItem(id));
    FilterKeepsAll(once.items, OtherId(id));
  }

  /** With unique ids, the `UPDATE_ITEM` the client dispatches after a rename
      leaves it with the list the backend holds after the rename. */
  lemma UpdateAfterRename(items: seq<Item>, id: Id, newName: string, now: string)
    requires UniqueIds(items) && Find(items, id).Some?
    ensures Replaced(items, Find(items, id).value.(name := newName, updatedAt := now)) ==
            Renamed(items, id, newName, now)
  {
    var p := Find(items, id).value.(name := newName, updatedAt := now);
    var a := Replaced(items, p);
    var b := Renamed(items, id, newName, now);
    var k := FindIndex(items, id).value;
    forall i | 0 <= i < |items| ensures a[i] == b[i] {
      if i != k {
        assert items[i].id != id;
      }
    }
  }

  /** The same for a move. */
  lemma UpdateAfterMove(items: seq<Item>, id: Id, target: Option<Id>, now: string)
    requires UniqueIds(items) && Find(items, id).Some?
    ensures Replaced(items, Find(items, id).value.(parentId := target, updatedAt := now)) ==
            Moved(items, id, target, now)
  {
    var p := Find(items, id).value.(parentId := target, updatedAt := now);
    var a := Replaced(items, p);
    var b := Moved(items, id, target, now);
    var k := FindIndex(items, id).value;
    forall i | 0 <= i < |items| ensures a[i] == b[i] {
      if i != k {
        assert items[i].id != id;
      }
    }
  }

  /** Every id in `ids` belongs to an item strictly below `r`. */
  ghost predicate StrictlyBelow(s: seq<Item>, r: Id, ids: seq<Id>) {
    forall i :: i in ids ==> exists x :: x in s && Above(s, r, x) && x.id == i
  }

  /** `ids` are exactly `r` and the ids of the items below it. */
  ghost predicate SubtreeIds(s: seq<Item>, r: Id, ids: seq<Id>) {
    forall i :: i in ids <==> (i == r || exists x :: x in s && Above(s, r, x) && x.id == i)
  }

  /** Each id in `ids` comes after the ids of all its children in `s`. */
  ghost predicate ChildrenFirst(s: seq<Item>, ids: seq<Id>) {
    forall k, y :: 0 <= k < |ids| && y in s && y.parentId == Some(ids[k]) ==> y.id in ids[..k]
  }

  /** Removing the ids of `r`'s subtree is pruning that subtree. */
  lemma RemovedIsPruned(s: seq<Item>, r: Id, ids: seq<Id>)
    requires UniqueIds(s) && SubtreeIds(s, r, ids)
    ensures WithoutIds(s, ids) == Pruned(s, s, r)
  {
    forall x | x in s ensures NotIn(ids)(x) == OutsideSubtree(s, r)(x) {
      if x.id in ids && x.id != r {
        var y :| y in s && Above(s, r, y) && y.id == x.id;
        FindUnique(s, x);
        FindUnique(s, y);
      }
    }
    FilterExt(s, NotIn(ids), OutsideSubtree(s, r));
  }

  /** The sub-list of the items of `s` the loop has handled: its ids are among
      the recursive call's results. */
  ghost predicate Covered(s: seq<Item>, cs: seq<Item>, ids: seq<Id>) {
    forall x :: x in s && InSome(s, cs, x) ==> x.id in ids
  }

  /** The ids removed below a child `c` of `r` lie below `r`. */
  lemma BelowChild(s: seq<Item>, r: Id, c: Item, sub: seq<Id>)
    requires UniqueIds(s) && c in s && c.parentId == Some(r) && SubtreeIds(s, c.id, sub)
    ensures StrictlyBelow(s, r, sub)
  {
    FindUnique(s, c);
    forall i | i in sub ensures exists x :: x in s && Above(s, r, x) && x.id == i {
      if i == c.id {
        assert AncestorWithin(s, r, c.parentId, 0);
        assert Above(s, r, c);
      } else {
        var x :| x in s && Above(s, c.id, x) && x.id == i;
        AboveThrough(s, c, r, x);
      }
    }
  }

  /** Adding the ids of child `i`'s subtree extends the covered prefix by one child. */
  lemma CoverStep(s: seq<Item>, cs: seq<Item>, i: nat, ids: seq<Id>, sub: seq<Id>)
    requires i < |cs| && Covered(s, cs[..i], ids) && SubtreeIds(s, cs[i].id, sub)
    ensures Covered(s, cs[..i + 1], ids + sub)
  {
    forall x | x in s && InSome(s, cs[..i + 1], x) ensures x.id in ids + sub {
      InSomeStep(s, cs, i, x);
    }
  }

  /** Children-first order is kept by appending a block that is itself in that order. */
  lemma ChildrenFirstAppend(s: seq<Item>, ids: seq<Id>, sub: seq<Id>)
    requires ChildrenFirst(s, ids) && ChildrenFirst(s, sub)
    ensures ChildrenFirst(s, ids + sub)
  {
    var r := ids + sub;
    forall k, y | 0 <= k < |r| && y in s && y.parentId == Some(r[k]) ensures y.id in r[..k] {
      if k < |ids| {
        assert r[k] == ids[k] && y.id in ids[..k];
        assert r[..k] == ids[..k];
      } else {
        var k' := k - |ids|;
        assert r[k] == sub[k'] && y.id in sub[..k'];
        assert r[..k] == ids + sub[..k'];
      }
    }
  }

  /** What the loop of `removeRecursively(r)` has done after the first `i`
      children of `r`: removed ids below `r` only, in children-first order,
      covering the subtrees of those children. */
  ghost predicate Removing(s: seq<Item>, r: Id, i: nat, ids: seq<Id>) {
    var cs := ChildrenOf(s, Some(r));
    i <= |cs| && StrictlyBelow(s, r, ids) && ChildrenFirst(s, ids) && Covered(s, cs[..i], ids)
  }

  /** The loop starts with nothing removed. */
  lemma RemovingStart(s: seq<Item>, r: Id)
    ensures Removing(s, r, 0, [])
  {
  }

  /** One more child's subtree removed, in children-first order. */
  lemma RemovingStep(s: seq<Item>, r: Id, i: nat, ids: seq<Id>, sub: seq<Id>)
    requires UniqueIds(s) && Removing(s, r, i, ids) && i < |ChildrenOf(s, Some(r))|
    requires SubtreeIds(s, ChildrenOf(s, Some(r))[i].id, sub) && ChildrenFirst(s, sub)
    ensures Removing(s, r, i + 1, ids + sub)
  {
    var cs := ChildrenOf(s, Some(r));
    BelowChild(s, r, cs[i], sub);
    CoverStep(s, cs, i, ids, sub);
    ChildrenFirstAppend(s, ids, sub);
  }

  /** Finishing the removal of `r` once all its children's subtrees are removed. */
  lemma FinishSubtree(s: seq<Item>, r: Id, ids: seq<Id>)
    requires UniqueIds(s) && Removing(s, r, |ChildrenOf(s, Some(r))|, ids)
    ensures SubtreeIds(s, r, ids + [r]) && ChildrenFirst(s, ids + [r])
  {
    var cs := ChildrenOf(s, Some(r));
    assert cs[..|cs|] == cs;
    var all := ids + [r];
    forall i ensures i in all <==> (i == r || exists x :: x in s && Above(s, r, x) && x.id == i) {
      if i != r && exists x :: x in s && Above(s, r, x) && x.id == i {
        var x :| x in s && Above(s, r, x) && x.id == i;
        SubtreeByChildren(s, s, r, x);
      }
    }
    forall k, y | 0 <= k < |all| && y in s && y.parentId == Some(all[k]) ensures y.id in all[..k] {
      if k < |ids| {
        assert all[k] == ids[k] && y.id in ids[..k];
        assert all[..k] == ids[..k];
      } else {
        assert y in cs;
        var j :| 0 <= j < |cs| && cs[j] == y;
        assert InSubtree(s, cs[j].id, y);
        assert all[..k] == ids;
      }
    }
  }

  // ------------------------------------------------- client beside backend

  /** The client list `c` beside the backend list `b`, with `open` the open
      folder: `b` has unique ids, no cycle and files only at the leaves; `c`
      holds items of `b` and, with each of them, its resolved parent; and the
      open folder, when it resolves, is a folder that `c` holds. The root-only
      load sets this up and every provider operation keeps it. */
  ghost predicate CoherentWith(b: seq<Item>, c: seq<Item>, open: Option<Id>) {
    ClosedPart(b, c) && FilesAreLeaves(b) && Shown(b, c, open) && FolderRef(b, open)
  }

  /** With the root open, the empty list and the root items are coherent with
      a well-formed backend list. */
  lemma RootsCoherent(b: seq<Item>)
    requires UniqueIds(b) && Acyclic(b) && FilesAreLeaves(b)
    ensures CoherentWith(b, [], None)
    ensures CoherentWith(b, ChildrenOf(b, None), None)
  {
  }

  /** A well-formed backend list is coherent with itself when the open folder
      is a folder. */
  lemma WholeCoherent(b: seq<Item>, open: Option<Id>)
    requires UniqueIds(b) && Acyclic(b) && FilesAreLeaves(b) && FolderRef(b, open)
    ensures CoherentWith(b, b, open)
  {
  }

  /** Appending the same item, with a fresh id and the open folder as parent,
      to both lists keeps them coherent. */
  lemma AppendCoherent(b: seq<Item>, c: seq<Item>, open: Option<Id>, f: Item)
    requires CoherentWith(b, c, open) && Fresh(b, f.id) && open != Some(f.id) && f.parentId == open
    ensures CoherentWith(b + [f], c + [f], open)
  {
    var b', c' := b + [f], c + [f];
    AppendUnique(b, f);
    AppendAcyclic(b, f);
    AppendLeaves(b, f);
    if open.Some? {
      FindAppend(b, f, open.value);
    }
    forall x | x in c' && x.parentId.Some? && Find(b', x.parentId.value).Some?
      ensures Find(b', x.parentId.value).value in c'
    {
      FindAppend(b, f, x.parentId.value);
    }
  }

  /** What `Replaced(c, p)` holds, for a client list whose items come from a
      list with unique ids where `z` has `p`'s id. */
  lemma ReplacedMembers(b: seq<Item>, c: seq<Item>, z: Item, p: Item)
    requires UniqueIds(b) && (forall y {:trigger y in c} :: y in c ==> y in b) && z in b && p.id == z.id
    ensures forall y :: y in c && y.id != p.id ==> y in Replaced(c, p)
    ensures z in c ==> p in Replaced(c, p)
    ensures forall y :: y in Replaced(c, p) && y != p ==> y in c && y.id != p.id
    ensures p in Replaced(c, p) ==> z in c
  {
    var r := Replaced(c, p);
    forall y | y in c && y.id != p.id ensures y in r {
      var i :| 0 <= i < |c| && c[i] == y;
      assert r[i] == y;
    }
    if z in c {
      var i :| 0 <= i < |c| && c[i] == z;
      assert r[i] == p;
    }
    forall y | y in r && y != p ensures y in c && y.id != p.id {
      var i :| 0 <= i < |r| && r[i] == y;
    }
    if p in r {
      var i :| 0 <= i < |r| && r[i] == p;
      assert c[i] in c && c[i].id == p.id;
      FindUnique(b, c[i]);
      FindUnique(b, z);
    }
  }

  /** Putting `p` in place of item `k` of the backend list, with the same id
      and kind, and in place of the client's copies, keeps the lists coherent
      when the new backend list is acyclic, `p`'s parent is a folder and, if
      the client holds the item, the client shows `p`'s parent. */
  lemma UpdateCoherent(b: seq<Item>, c: seq<Item>, open: Option<Id>, k: nat, p: Item)
    requires CoherentWith(b, c, open) && k < |b| && p.id == b[k].id && p.Folder? == b[k].Folder?
    requires b[k] in c ==> Shown(b, c, p.parentId)
    requires FolderRef(b, p.parentId) && Acyclic(b[k := p])
    ensures CoherentWith(b[k := p], Replaced(c, p), open)
  {
    var b', c' := b[k := p], Replaced(c, p);
    SameIdsUnique(b, b');
    ReplacedMembers(b, c, b[k], p);
    FindUnique(b, b[k]);
    forall y | y in c' ensures y in b' {
      if y != p {
        var j :| 0 <= j < |b| && b[j] == y;
        assert b'[j] == y;
      }
    }
    forall y | y in c' && y.parentId.Some? && Find(b', y.parentId.value).Some?
      ensures Find(b', y.parentId.value).value in c'
    {
      FindUpdate(b, k, p, y.parentId.value);
    }
    forall x | x in b' && x.parentId.Some? && Find(b', x.parentId.value).Some?
      ensures Find(b', x.parentId.value).value.Folder?
    {
      FindUpdate(b, k, p, x.parentId.value);
      var i :| 0 <= i < |b'| && b'[i] == x;
      if i != k {
        assert b[i] == x;
      }
    }
    if open.Some? {
      FindUpdate(b, k, p, open.value);
    }
  }

  /** The backend's rename beside the client's `UPDATE_ITEM` keeps the lists coherent. */
  lemma RenameCoherent(b: seq<Item>, c: seq<Item>, open: Option<Id>, id: Id, newName: string, now: string)
    requires CoherentWith(b, c, open) && Find(b, id).Some?
    ensures CoherentWith(Renamed(b, id, newName, now),
                         Replaced(c, Find(b, id).value.(name := newName, updatedAt := now)), open)
  {
    var k := FindIndex(b, id).value;
    var z := b[k];
    assert (z in c ==> Shown(b, c, z.parentId)) && FolderRef(b, z.parentId) by {
      if z.parentId.Some? && Find(b, z.parentId.value).Some? {
        assert Find(b, z.parentId.value).value.Folder?;
        if z in c {
          assert Find(b, z.parentId.value).value in c;
        }
      }
    }
    RenameAcyclic(b, id, newName, now);
    UpdateCoherent(b, c, open, k, z.(name := newName, updatedAt := now));
  }

  /** The backend's move beside the client's `UPDATE_ITEM` keeps the lists
      coherent when the new parent is a folder the client shows and the moved
      item is not above it. */
  lemma MoveCoherent(b: seq<Item>, c: seq<Item>, open: Option<Id>, id: Id, target: Option<Id>, now: string)
    requires CoherentWith(b, c, open) && Find(b, id).Some?
    requires Shown(b, c, target) && FolderRef(b, target) && !IsAncestorRef(b, id, target)
    ensures CoherentWith(Moved(b, id, target, now),
                         Replaced(c, Find(b, id).value.(parentId := target, updatedAt := now)), open)
  {
    var k := FindIndex(b, id).value;
    MoveAcyclic(b, id, target, now);
    UpdateCoherent(b, c, open, k, b[k].(parentId := target, updatedAt := now));
  }

  /** Removing items from the backend list, and from the client list exactly
      the removed items it holds, keeps the lists coherent as long as the
      smaller backend list keeps unique ids and no cycle. */
  lemma ShrinkCoherent(b: seq<Item>, c: seq<Item>, open: Option<Id>, b': seq<Item>, c': seq<Item>)
    requires CoherentWith(b, c, open) && UniqueIds(b') && Acyclic(b')
    requires forall x {:trigger x in b'} :: x in b' ==> x in b
    requires forall x {:trigger x in c'} :: x in c' <==> x in c && x in b'
    ensures CoherentWith(b', c', open)
  {
    PartLeaves(b, b');
    forall y | y in c' && y.parentId.Some? && Find(b', y.parentId.value).Some?
      ensures Find(b', y.parentId.value).value in c'
    {
      PartFind(b, b', y.parentId.value);
    }
    if open.Some? && Find(b', open.value).Some? {
      PartFind(b, b', open.value);
    }
  }

  /** The backend's cascading delete of `id`, beside the client's removal of
      the subtree of `id` it finds in its own list, keeps the lists coherent:
      the parent-closed client list sees the same subtree as the backend. */
  lemma DeleteCoherent(b: seq<Item>, c: seq<Item>, open: Option<Id>, id: Id, removed: seq<Id>)
    requires CoherentWith(b, c, open) && UniqueIds(c) && SubtreeIds(c, id, removed)
    ensures CoherentWith(Pruned(b, b, id), WithoutIds(c, removed), open)
  {
    var b', c' := Pruned(b, b, id), WithoutIds(c, removed);
    FilterKeepsUnique(b, OutsideSubtree(b, id));
    PartAcyclic(b, b');
    forall x | x in c ensures (x in c') == (x in b') {
      assert Shown(b, c, x.parentId) by {
        if x.parentId.Some? && Find(b, x.parentId.value).Some? {
          assert Find(b, x.parentId.value).value in c;
        }
      }
      PartAncestorRef(b, c, id, x.parentId);
      if x.id in removed && x.id != id {
        var y :| y in c && Above(c, id, y) && y.id == x.id;
        FindUnique(c, x);
        FindUnique(c, y);
      }
    }
    ShrinkCoherent(b, c, open, b', c');
  }

  /** The data-room provider: its reducer state and the backend it calls. */
  class DataRoomProvider {
    var state: RoomState
    const backend: MockBackend

    /** The client holds exactly the backend's list, in the backend's order. */
    ghost predicate Synced()
      reads this, backend
    {
      state.items == backend.items
    }

    /** The client's list and open folder are coherent with the backend's list. */
    ghost predicate Coherent()
      reads this, backend
    {
      CoherentWith(backend.items, state.items, state.currentFolderId)
    }

    /** `useReducer(dataRoomReducer, initialState)`, before the mount effect runs. */
    constructor (b: MockBackend)
      ensures backend == b && state == InitialRoom()
      ensures b.Valid() && Acyclic(b.items) && FilesAreLeaves(b.items) ==> Coherent()
    {
      backend := b;
      state := InitialRoom();
      if b.Valid() && Acyclic(b.items) && FilesAreLeaves(b.items) {
        RootsCoherent(b.items);
      }
    }

    /** `dispatch`: the reducer's result becomes the state. */
    method Dispatch(a: Action)
      modifies this`state
      ensures state == Reduce(old(state), a)
    {
      state := Reduce(state, a);
    }

    /** `loadItems` as written: it stores `getItems(null)`, the root items
        only, so nothing inside a folder reaches the client. */
    method LoadItems()
      modifies this`state
      ensures state == old(state).(items := ChildrenOf(backend.items, None), isLoading := false)
      ensures (backend.Valid() && Acyclic(backend.items) && FilesAreLeaves(backend.items) &&
               old(state.currentFolderId).None?) ==> Coherent()
    {
      Dispatch(SetLoading(true));
      var all := backend.GetItems(None);
      Dispatch(SetItems(all));
      if backend.Valid() && Acyclic(backend.items) && FilesAreLeaves(backend.items) {
        RootsCoherent(backend.items);
      }
    }

    /** `loadItems` as evidently intended: the whole list is stored, so the
        client starts synchronised with the backend. */
    method LoadAllItems()
      modifies this`state
      ensures state == old(state).(items := backend.items, isLoading := false)
      ensures Synced()
      ensures (backend.Valid() && Acyclic(backend.items) && FilesAreLeaves(backend.items) &&
               FolderRef(backend.items, state.currentFolderId)) ==> Coherent()
    {
      Dispatch(SetLoading(true));
      var all := backend.items;
      Dispatch(SetItems(all));
      if backend.Valid() && Acyclic(backend.items) && FilesAreLeaves(backend.items) &&
         FolderRef(backend.items, state.currentFolderId) {
        WholeCoherent(backend.items, state.currentFolderId);
      }
    }

    /** `createFolder(name)`: a folder in the open folder, appended on both sides. */
    method CreateFolder(name: string, id: Id, now: string) returns (f: Item)
      requires backend.Valid() && Fresh(backend.items, id)
      modifies this`state, backend`items
      ensures f == Folder(id, name, old(state).currentFolderId, now, now)
      ensures backend.items == old(backend.items) + [f] && backend.Valid()
      ensures state == old(state).(items := old(state.items) + [f])
      ensures old(Synced()) ==> Synced()
      ensures old(Coherent()) && old(state.currentFolderId) != Some(id) ==> Coherent()
    {
      ghost var b, c := backend.items, state.items;
      var parentId := state.currentFolderId;
      f := backend.CreateFolder(name, parentId, id, now);
      Dispatch(AddItem(f));
      if CoherentWith(b, c, parentId) && parentId != Some(id) {
        AppendCoherent(b, c, parentId, f);
      }
    }

    /** `uploadFile(fileData)`: a file in the open folder, appended on both sides. */
    method UploadFile(file: LocalFile, name: string, id: Id, urlId: string, thumbnailId: string, now: string)
      requires backend.Valid() && Fresh(backend.items, id)
      modifies this`state, backend`items
      ensures |backend.items| == |old(backend.items)| + 1 && backend.Valid()
      ensures backend.items[..|old(backend.items)|] == old(backend.items)
      ensures var f := backend.items[|old(backend.items)|];
        f.File? && f.id == id && f.name == name && f.parentId == old(state).currentFolderId &&
        f.size == file.size && f.mimeType == file.mimeType &&
        state == old(state).(items := old(state.items) + [f])
      ensures old(Synced()) ==> Synced()
      ensures old(Coherent()) && old(state.currentFolderId) != Some(id) ==> Coherent()
    {
      ghost var b, c := backend.items, state.items;
      var f := backend.UploadFile(name, file, state.currentFolderId, id, urlId, thumbnailId, now);
      Dispatch(AddItem(f));
      if CoherentWith(b, c, state.currentFolderId) && state.currentFolderId != Some(id) {
        AppendCoherent(b, c, state.currentFolderId, f);
      }
    }

    /** `navigateToFolder(folderId)`: only the open folder changes. */
    method NavigateToFolder(folderId: Option<Id>)
      modifies this`state
      ensures state == old(state).(currentFolderId := folderId)
      ensures (old(Coherent()) && Shown(backend.items, state.items, folderId) &&
               FolderRef(backend.items, folderId)) ==> Coherent()
    {
      Dispatch(SetCurrentFolder(folderId));
    }

    /** `renameItem`: an unknown id is the backend's error and the state is
        untouched; otherwise the renamed item replaces the client's copy. */
    method RenameItem(id: Id, newName: string, now: string) returns (r: Result<()>)
      requires backend.Valid()
      modifies this`state, backend`items
      ensures backend.Valid()
      ensures Find(old(backend.items), id).None? ==>
        r == Err("Item not found") && state == old(state) && backend.items == old(backend.items)
      ensures Find(old(backend.items), id).Some? ==> (r.Ok? &&
        backend.items == Renamed(old(backend.items), id, newName, now) &&
        state == old(state).(items := Replaced(old(state.items),
                                               Find(old(backend.items), id).value.(name := newName, updatedAt := now))))
      ensures old(Synced()) ==> Synced()
      ensures old(Coherent()) ==> Coherent()
    {
      ghost var before := backend.items;
      ghost var c := state.items;
      var updated := backend.RenameItem(id, newName, now);
      if updated.Err? {
        return Err(updated.message);
      }
      Dispatch(UpdateItem(updated.value));
      if state.items == Replaced(before, updated.value) {
        UpdateAfterRename(before, id, newName, now);
      }
      if CoherentWith(before, c, state.currentFolderId) {
        RenameCoherent(before, c, state.currentFolderId, id, newName, now);
      }
      r := Ok(());
    }

    /** `moveItem`: an unknown id is the backend's error and the state is
        untouched; otherwise the moved item replaces the client's copy. */
    method MoveItem(id: Id, target: Option<Id>, now: string) returns (r: Result<()>)
      requires backend.Valid()
      modifies this`state, backend`items
      ensures backend.Valid()
      ensures Find(old(backend.items), id).None? ==>
        r == Err("Item not found") && state == old(state) && backend.items == old(backend.items)
      ensures Find(old(backend.items), id).Some? ==> (r.Ok? &&
        backend.items == Moved(old(backend.items), id, target, now) &&
        state == old(state).(items := Replaced(old(state.items),
                                               Find(old(backend.items), id).value.(parentId := target, updatedAt := now))))
      ensures old(Synced()) ==> Synced()
      ensures Acyclic(old(backend.items)) && !IsAncestorRef(old(backend.items), id, target) ==>
        Acyclic(backend.items)
      ensures (old(Coherent()) && Shown(old(backend.items), old(state.items), target) &&
               FolderRef(old(backend.items), target) && !IsAncestorRef(old(backend.items), id, target)) ==>
        Coherent()
    {
      ghost var before := backend.items;
      ghost var c := state.items;
      var updated := backend.MoveItem(id, target, now);
      if updated.Err? {
        return Err(updated.message);
      }
      Dispatch(UpdateItem(updated.value));
      if state.items == Replaced(before, updated.value) {
        UpdateAfterMove(before, id, target, now);
      }
      if CoherentWith(before, c, state.currentFolderId) && Shown(before, c, target) &&
         FolderRef(before, target) && !IsAncestorRef(before, id, target) {
        MoveCoherent(before, c, state.currentFolderId, id, target, now);
      }
      r := Ok(());
    }

    /** `deleteItem`: the backend deletes the subtree, then the client
        dispatches `REMOVE_ITEM` for the item and, first, for everything
        below it in its own list. A synchronised client stays synchronised. */
    method DeleteItem(id: Id) returns (ghost removed: seq<Id>)
      requires backend.Valid() && Acyclic(backend.items) && Forest(state.items)
      modifies this`state, backend`items
      ensures backend.items == Pruned(old(backend.items), old(backend.items), id)
      ensures backend.Valid() && Acyclic(backend.items)
      ensures state == old(state).(items := WithoutIds(old(state.items), removed))
      ensures SubtreeIds(old(state.items), id, removed) && ChildrenFirst(old(state.items), removed)
      ensures old(Synced()) ==> Synced()
      ensures old(Coherent()) ==> Coherent()
    {
      ghost var before := backend.items;
      backend.DeleteItem(id);
      var snapshot := state.items;
      removed := RemoveRecursively(snapshot, id);
      if snapshot == old(backend.items) {
        RemovedIsPruned(snapshot, id, removed);
      }
      if CoherentWith(before, snapshot, state.currentFolderId) {
        DeleteCoherent(before, snapshot, state.currentFolderId, id, removed);
      }
    }

    /** `removeRecursively(id)`: the children are looked up in `snapshot`, the
        list the component rendered with; each child's subtree is removed
        first, then `REMOVE_ITEM` is dispatched for `id`. `removed` lists the
        dispatched ids in order. */
    method RemoveRecursively(snapshot: seq<Item>, id: Id) returns (removed: seq<Id>)
      requires Forest(snapshot)
      modifies this`state
      ensures state == old(state).(items := WithoutIds(old(state.items), removed))
      ensures SubtreeIds(snapshot, id, removed) && ChildrenFirst(snapshot, removed)
      decreases |Desc(snapshot, id)|, 1
    {
      ghost var st0 := state;
      removed := RemoveChildren(snapshot, id);
      FinishSubtree(snapshot, id, removed);
      WithoutIdsStep(st0.items, removed, id);
      Dispatch(RemoveItem(id));
      removed := removed + [id];
    }

    /** The `forEach` of `removeRecursively(id)`: the subtree of each child
        of `id` in `snapshot`, in turn, is removed children first. */
    method RemoveChildren(snapshot: seq<Item>, id: Id) returns (removed: seq<Id>)
      requires Forest(snapshot)
      modifies this`state
      ensures state == old(state).(items := WithoutIds(old(state.items), removed))
      ensures Removing(snapshot, id, |ChildrenOf(snapshot, Some(id))|, removed)
      decreases |Desc(snapshot, id)|, 0
    {
      ghost var st0 := state;
      var children := ChildrenOf(snapshot, Some(id));
      removed := [];
      WithoutNoIds(st0.items);
      RemovingStart(snapshot, id);
      var i := 0;
      while i < |children|
        invariant i <= |children|
        invariant state == st0.(items := WithoutIds(st0.items, removed))
        invariant Removing(snapshot, id, i, removed)
      {
        var child := children[i];
        DescShrinks(snapshot, child, id);
        var sub := RemoveRecursively(snapshot, child.id);
        WithoutIdsAppend(st0.items, removed, sub);
        RemovingStep(snapshot, id, i, removed, sub);
        removed := removed + sub;
        i := i + 1;
      }
    }

    /** `searchItems(query)` on the provider's state. */
    function Search(query: string): (r: seq<Item>)
      reads this
      ensures IsBlank(query) ==> r == CurrentItems(state)
      ensures !IsBlank(query) ==> forall x :: x in r <==> x in state.items && NameMatches(x, query)
      ensures !IsBlank(query) ==>
        forall x :: multiset(r)[x] == if NameMatches(x, query) then multiset(state.items)[x] else 0
      ensures IsSubsequence(r, state.items)
    {
      SearchItems(state, query)
    }
  }

  /** A synchronised client shows, for the open folder, exactly what the
      backend's `getItems` returns for it. */
  lemma SyncedCurrentItems(st: RoomState, b: seq<Item>)
    requires st.items == b
    ensures CurrentItems(st) == ChildrenOf(b, st.currentFolderId)
  {
  }

  /** After the root-only load, every folder other than the root shows as
      empty, whatever the backend holds in it. */
  lemma RootLoadHidesNested(items: seq<Item>, folderId: Id, loading: bool)
    ensures CurrentItems(RoomState(ChildrenOf(items, None), Some(folderId), loading)) == []
  {
    var st := RoomState(ChildrenOf(items, None), Some(folderId), loading);
    var shown := CurrentItems(st);
    assert forall x :: x in shown ==> x.parentId == None;
  }

  /** In the seeded data "Documents" ("folder-1") holds "Legal Documents" and
      "Sample Document.pdf", which the root-only load therefore hides. */
  lemma SeedDocumentsNotEmpty()
    ensures SeedItems()[2] in ChildrenOf(SeedItems(), Some("folder-1"))
    ensures SeedItems()[3] in ChildrenOf(SeedItems(), Some("folder-1"))
  {
    var s := SeedItems();
    assert s[2] in s && s[3] in s;
  }
}
