/** The data-room item: a folder or a file, linked to its parent folder by a
    nullable `parentId` (types/enhanced.ts), and the lookups and in-place
    field updates the store performs on a flat, ordered list of items. */
module Items {

  import opened Wrappers
  import opened Seqs
  import opened Text

  /** Item ids. Every id the application creates is non-empty (seeded ids and
      `generateId`), so the JavaScript truthiness tests on ids mean "not null". */
  type Id = s: string | s != [] witness "0"

  datatype Item =
    | Folder(id: Id, name: string, parentId: Option<Id>, createdAt: string, updatedAt: string)
    | File(id: Id, name: string, parentId: Option<Id>, createdAt: string, updatedAt: string,
           size: nat, mimeType: string, url: Option<string>, thumbnailUrl: Option<string>)

  /** A file picked in the browser (`globalThis.File`): its name, byte size and MIME type. */
  datatype LocalFile = LocalFile(name: string, size: nat, mimeType: string)

  /** No two positions of the list hold the same id. */
  predicate UniqueIds(items: seq<Item>) {
    forall i, j :: 0 <= i < |items| && 0 <= j < |items| && items[i].id == items[j].id ==> i == j
  }

  /** `id` is neither used by an item nor named as a parent by one: what a
      freshly generated id is. */
  predicate Fresh(items: seq<Item>, id: Id) {
    forall x :: x in items ==> x.id != id && x.parentId != Some(id)
  }

  /** Position of the first item with this id: what `items.find(item => item.id === id)` picks. */
  function FindIndex(items: seq<Item>, id: Id): (r: Option<nat>)
    ensures r.Some? ==> r.value < |items| && items[r.value].id == id
    ensures r.Some? ==> forall j :: 0 <= j < r.value ==> items[j].id != id
    ensures r.None? ==> forall j :: 0 <= j < |items| ==> items[j].id != id
  {
    if items == [] then None
    else if items[0].id == id then Some(0)
    else match FindIndex(items[1..], id)
      case None => None
      case Some(k) => Some(k + 1)
  }

  /** `items.find(item => item.id === id)`. */
  function Find(items: seq<Item>, id: Id): (r: Option<Item>)
    ensures r.Some? ==> r.value in items && r.value.id == id
    ensures r.None? <==> forall x :: x in items ==> x.id != id
  {
    match FindIndex(items, id)
    case None => None
    case Some(k) => Some(items[k])
  }

  /** `items.find(item => item.id === id && item.type === 'folder')`. */
  function FindFolder(items: seq<Item>, id: Id): (r: Option<Item>)
    ensures r.Some? ==> r.value in items && r.value.id == id && r.value.Folder?
    ensures r.None? <==> forall x :: x in items ==> !(x.id == id && x.Folder?)
  {
    var r := FindFirst(items, (x: Item) => x.id == id && x.Folder?);
    assert r.None? ==> forall x :: x in items ==> !(x.id == id && x.Folder?) by {
      if r.None? {
        forall x | x in items ensures !(x.id == id && x.Folder?) {
          var i :| 0 <= i < |items| && items[i] == x;
        }
      }
    }
    r
  }

  /** With unique ids, the item found by id is the one that has it. */
  lemma FindUnique(items: seq<Item>, x: Item)
    requires UniqueIds(items) && x in items
    ensures Find(items, x.id) == Some(x)
  {
    var i :| 0 <= i < |items| && items[i] == x;
  }

  /** With unique ids, the folder lookup agrees with the plain lookup. */
  lemma FindFolderUnique(items: seq<Item>, id: Id)
    requires UniqueIds(items)
    ensures FindFolder(items, id).Some? ==> Find(items, id) == FindFolder(items, id)
  {
    if FindFolder(items, id).Some? {
      FindUnique(items, FindFolder(items, id).value);
    }
  }

  /** Lists with the same ids at the same positions find the same positions. */
  lemma {:induction false} FindIndexSameIds(a: seq<Item>, b: seq<Item>, id: Id)
    requires |a| == |b| && forall i :: 0 <= i < |a| ==> a[i].id == b[i].id
    ensures FindIndex(a, id) == FindIndex(b, id)
  {
    if a != [] && a[0].id != id {
      FindIndexSameIds(a[1..], b[1..], id);
    }
  }

  /** Appending an item leaves every earlier lookup as it was; the new item is
      found only under an id no earlier item has. */
  lemma {:induction false} FindAppend(items: seq<Item>, z: Item, id: Id)
    ensures Find(items + [z], id) ==
      if Find(items, id).Some? then Find(items, id) else if z.id == id then Some(z) else None
  {
    FindIndexAppend(items, z, id);
  }

  lemma {:induction false} FindIndexAppend(items: seq<Item>, z: Item, id: Id)
    ensures FindIndex(items + [z], id) ==
      if FindIndex(items, id).Some? then FindIndex(items, id)
      else if z.id == id then Some(|items|) else None
  {
    if items != [] {
      assert (items + [z])[1..] == items[1..] + [z];
      FindIndexAppend(items[1..], z, id);
    }
  }

  /** The list after `renameItem` mutates the first item with `id`: only that
      item's `name` and `updatedAt` change; an unknown id changes nothing. */
  function Renamed(items: seq<Item>, id: Id, newName: string, now: string): (r: seq<Item>)
    ensures |r| == |items| && forall i :: 0 <= i < |r| ==> r[i].id == items[i].id
    ensures Find(items, id).None? ==> r == items
    ensures Find(items, id).Some? ==>
      Find(r, id) == Some(Find(items, id).value.(name := newName, updatedAt := now))
    ensures forall i :: 0 <= i < |r| && r[i] != items[i] ==>
      items[i].id == id && r[i] == items[i].(name := newName, updatedAt := now)
    ensures forall i :: 0 <= i < |r| && r[i] != items[i] ==> FindIndex(items, id) == Some(i)
  {
    match FindIndex(items, id)
    case None => items
    case Some(k) =>
      var r := items[k := items[k].(name := newName, updatedAt := now)];
      FindIndexSameIds(items, r, id);
      r
  }

  /** The list after `moveItem` mutates the first item with `id`: only that
      item's `parentId` and `updatedAt` change; an unknown id changes nothing. */
  function Moved(items: seq<Item>, id: Id, newParent: Option<Id>, now: string): (r: seq<Item>)
    ensures |r| == |items| && forall i :: 0 <= i < |r| ==> r[i].id == items[i].id
    ensures Find(items, id).None? ==> r == items
    ensures Find(items, id).Some? ==>
      Find(r, id) == Some(Find(items, id).value.(parentId := newParent, updatedAt := now))
    ensures forall i :: 0 <= i < |r| && r[i] != items[i] ==>
      items[i].id == id && r[i] == items[i].(parentId := newParent, updatedAt := now)
    ensures forall i :: 0 <= i < |r| && r[i] != items[i] ==> FindIndex(items, id) == Some(i)
  {
    match FindIndex(items, id)
    case None => items
    case Some(k) =>
      var r := items[k := items[k].(parentId := newParent, updatedAt := now)];
      FindIndexSameIds(items, r, id);
      r
  }

  /** With unique ids, putting `p` in place of item `k`, which has `p`'s id,
      changes only what `p`'s id is looked up as. */
  lemma FindUpdate(items: seq<Item>, k: nat, p: Item, q: Id)
    requires UniqueIds(items) && k < |items| && p.id == items[k].id
    ensures Find(items[k := p], q) == if q == p.id then Some(p) else Find(items, q)
  {
    FindIndexSameIds(items, items[k := p], q);
  }

  /** Changing items without changing the id at any position keeps ids unique. */
  lemma SameIdsUnique(a: seq<Item>, b: seq<Item>)
    requires UniqueIds(a)
    requires |a| == |b| && forall i :: 0 <= i < |a| ==> a[i].id == b[i].id
    ensures UniqueIds(b)
  {
    forall i, j | 0 <= i < |b| && 0 <= j < |b| && b[i].id == b[j].id ensures i == j {
      assert a[i].id == a[j].id;
    }
  }

  /** Other ids are found where they were, and the moved item is found with its new parent. */
  lemma FindAfterMove(items: seq<Item>, id: Id, newParent: Option<Id>, now: string, other: Id)
    ensures other != id ==> Find(Moved(items, id, newParent, now), other) == Find(items, other)
  {
    var r := Moved(items, id, newParent, now);
    FindIndexSameIds(items, r, other);
  }

  /** `items.filter(item => item.parentId === parentId)`: the children of a
      folder (or the roots, for `None`), in stored order. */
  function ChildrenOf(items: seq<Item>, parentId: Option<Id>): (r: seq<Item>)
    ensures forall x {:trigger x in r} :: x in r <==> x in items && x.parentId == parentId
    ensures forall x :: multiset(r)[x] == if x.parentId == parentId then multiset(items)[x] else 0
    ensures IsSubsequence(r, items)
  {
    Filter(items, (x: Item) => x.parentId == parentId)
  }

  /** The test `item => item.id !== id`. */
  function OtherId(id: Id): Item -> bool {
    (x: Item) => x.id != id
  }

  /** `items.filter(item => item.id !== id)`. */
  function WithoutId(items: seq<Item>, id: Id): (r: seq<Item>)
    ensures forall x :: x in r <==> x in items && x.id != id
    ensures forall x :: multiset(r)[x] == if x.id != id then multiset(items)[x] else 0
    ensures IsSubsequence(r, items)
    ensures (forall x :: x in items ==> x.id != id) ==> r == items
  {
    var r := Filter(items, OtherId(id));
    assert (forall x :: x in items ==> x.id != id) ==> r == items by {
      if forall x :: x in items ==> x.id != id {
        FilterKeepsAll(items, OtherId(id));
      }
    }
    r
  }

  /** Case-insensitive `includes` of the query in the item's name. */
  predicate NameMatches(x: Item, query: string) {
    Contains(Lower(x.name), Lower(query))
  }

  /** `items.filter(item => item.name.toLowerCase().includes(query.toLowerCase()))`:
      the items of every folder whose name contains the query, in stored order. */
  function MatchingItems(items: seq<Item>, query: string): (r: seq<Item>)
    ensures forall x :: x in r <==> x in items && NameMatches(x, query)
    ensures forall x :: multiset(r)[x] == if NameMatches(x, query) then multiset(items)[x] else 0
    ensures IsSubsequence(r, items)
  {
    Filter(items, (x: Item) => NameMatches(x, query))
  }

  /** The empty query matches every name, so searching for it returns the whole list. */
  lemma EmptyQueryMatchesAll(items: seq<Item>)
    ensures MatchingItems(items, "") == items
  {
    forall x | x in items ensures NameMatches(x, "") {
      assert OccursAt(Lower(x.name), Lower(""), 0);
    }
    FilterKeepsAll(items, (x: Item) => NameMatches(x, ""));
  }

  /** The tail of a list with unique ids has unique ids, none of them the head's. */
  lemma UniqueTail(items: seq<Item>)
    requires UniqueIds(items) && items != []
    ensures UniqueIds(items[1..])
    ensures forall x :: x in items[1..] ==> x.id != items[0].id
  {
    var t := items[1..];
    forall i, j | 0 <= i < |t| && 0 <= j < |t| && t[i].id == t[j].id ensures i == j {
      assert items[i + 1].id == items[j + 1].id;
    }
    forall x | x in t ensures x.id != items[0].id {
      var i :| 0 <= i < |t| && t[i] == x;
      assert items[i + 1] == x;
    }
  }

  /** A head whose id the rest does not use keeps ids unique. */
  lemma UniqueCons(h: Item, rest: seq<Item>)
    requires UniqueIds(rest) && forall x :: x in rest ==> x.id != h.id
    ensures UniqueIds([h] + rest)
  {
    var r := [h] + rest;
    forall i, j | 0 <= i < |r| && 0 <= j < |r| && r[i].id == r[j].id ensures i == j {
      if i > 0 && j > 0 {
        assert rest[i - 1].id == rest[j - 1].id;
      }
    }
  }

  /** Unique ids stay unique in any filtered list. */
  lemma {:induction false} FilterKeepsUnique(items: seq<Item>, keep: Item -> bool)
    requires UniqueIds(items)
    ensures UniqueIds(Filter(items, keep))
  {
    if items != [] {
      UniqueTail(items);
      FilterKeepsUnique(items[1..], keep);
      var rest := Filter(items[1..], keep);
      if keep(items[0]) {
        UniqueCons(items[0], rest);
      }
    }
  }
}
