/** The parent graph of the item list: walks along `parentId` references, each
    reference looked up with `items.find` as the store and the view do.
    Walks are bounded by explicit fuel; the unbounded notions (`Rooted`,
    `IsAncestorRef`) quantify over it. */
module Hierarchy {

  import opened Wrappers
  import opened Seqs
  import opened Items

  /** Following parent references from `p` reaches a null or unresolved
      reference after at most `n` successful lookups. */
  predicate EndsWithin(items: seq<Item>, p: Option<Id>, n: nat)
    decreases n
  {
    p.None? || Find(items, p.value).None? ||
    (n > 0 && EndsWithin(items, Find(items, p.value).value.parentId, n - 1))
  }

  /** The walk up from `p` terminates. */
  ghost predicate Rooted(items: seq<Item>, p: Option<Id>) {
    exists n: nat :: EndsWithin(items, p, n)
  }

  /** The parent graph has no cycle: the walk up from every item terminates. */
  ghost predicate Acyclic(items: seq<Item>) {
    forall x {:trigger Rooted(items, x.parentId)} :: x in items ==> Rooted(items, x.parentId)
  }

  /** The reference `a` is met within `n` lookups when walking up from `p`:
      each reference is compared with `a` before it is looked up, as in
      `isDescendant`. */
  predicate AncestorWithin(items: seq<Item>, a: Id, p: Option<Id>, n: nat)
    decreases n
  {
    p.Some? &&
    (p.value == a ||
     (n > 0 && Find(items, p.value).Some? &&
      AncestorWithin(items, a, Find(items, p.value).value.parentId, n - 1)))
  }

  ghost predicate IsAncestorRef(items: seq<Item>, a: Id, p: Option<Id>) {
    exists n: nat :: AncestorWithin(items, a, p, n)
  }

  /** `a` appears strictly above `x` on its parent chain. */
  ghost predicate Above(items: seq<Item>, a: Id, x: Item) {
    IsAncestorRef(items, a, x.parentId)
  }

  /** `x` is the item `r` itself or lies below it: what a cascading delete of `r` removes. */
  ghost predicate InSubtree(items: seq<Item>, r: Id, x: Item) {
    x.id == r || Above(items, r, x)
  }

  /** The strict descendants of `r`. */
  ghost function Desc(items: seq<Item>, r: Id): set<Item> {
    set x | x in items && Above(items, r, x)
  }

  /** Unique ids and no cycle: the shape the store's data has as long as no
      move creates a cycle. */
  ghost predicate Forest(items: seq<Item>) {
    UniqueIds(items) && Acyclic(items)
  }

  /** `t` keeps, with each of its items, the parent that item has in `s`. */
  ghost predicate ParentClosed(s: seq<Item>, t: seq<Item>) {
    forall x {:trigger Find(s, x.parentId.value)} ::
      x in t && x.parentId.Some? && Find(s, x.parentId.value).Some? ==> Find(s, x.parentId.value).value in t
  }

  /** Every resolved parent reference resolves to a folder. */
  predicate FilesAreLeaves(items: seq<Item>) {
    forall x {:trigger Find(items, x.parentId.value)} ::
      x in items && x.parentId.Some? && Find(items, x.parentId.value).Some? ==> Find(items, x.parentId.value).value.Folder?
  }

  // ---------------------------------------------------------------- walks

  lemma {:induction false} EndsMono(items: seq<Item>, p: Option<Id>, n: nat, m: nat)
    requires n <= m && EndsWithin(items, p, n)
    ensures EndsWithin(items, p, m)
    decreases n
  {
    if p.Some? && Find(items, p.value).Some? {
      EndsMono(items, Find(items, p.value).value.parentId, n - 1, m - 1);
    }
  }

  /** A walk through a found item terminates iff the walk from its parent does. */
  lemma RootedStep(items: seq<Item>, q: Id)
    requires Find(items, q).Some?
    ensures Rooted(items, Some(q)) <==> Rooted(items, Find(items, q).value.parentId)
  {
    var y := Find(items, q).value;
    if Rooted(items, Some(q)) {
      var n: nat :| EndsWithin(items, Some(q), n);
      assert EndsWithin(items, y.parentId, n - 1);
    }
    if Rooted(items, y.parentId) {
      var n: nat :| EndsWithin(items, y.parentId, n);
      assert EndsWithin(items, Some(q), n + 1);
    }
  }

  /** In an acyclic list the walk up from any reference terminates. */
  lemma AcyclicRooted(items: seq<Item>, p: Option<Id>)
    requires Acyclic(items)
    ensures Rooted(items, p)
  {
    if p.Some? && Find(items, p.value).Some? {
      RootedStep(items, p.value);
    } else {
      assert EndsWithin(items, p, 0);
    }
  }

  /** A reference met on the walk up from a found item is met from the item's id. */
  lemma AncestorStep(items: seq<Item>, a: Id, q: Id)
    requires Find(items, q).Some?
    ensures IsAncestorRef(items, a, Some(q)) <==>
      q == a || IsAncestorRef(items, a, Find(items, q).value.parentId)
  {
    var y := Find(items, q).value;
    if IsAncestorRef(items, a, Some(q)) && q != a {
      var n: nat :| AncestorWithin(items, a, Some(q), n);
      assert AncestorWithin(items, a, y.parentId, n - 1);
    }
    if q == a {
      assert AncestorWithin(items, a, Some(q), 0);
    }
    if IsAncestorRef(items, a, y.parentId) {
      var n: nat :| AncestorWithin(items, a, y.parentId, n);
      assert AncestorWithin(items, a, Some(q), n + 1);
    }
  }

  /** A walk that meets `a`, where `a` is found with parent `b`, goes on to meet `b`. */
  lemma {:induction false} AncestorThrough(items: seq<Item>, a: Id, b: Id, p: Option<Id>, n: nat)
    requires AncestorWithin(items, a, p, n)
    requires Find(items, a).Some? && Find(items, a).value.parentId == Some(b)
    ensures AncestorWithin(items, b, p, n + 1)
    decreases n
  {
    if p.value != a {
      AncestorThrough(items, a, b, Find(items, p.value).value.parentId, n - 1);
    } else {
      assert AncestorWithin(items, b, Find(items, a).value.parentId, n);
    }
  }

  /** Whatever lies below a child lies below its parent. */
  lemma AboveThrough(items: seq<Item>, c: Item, r: Id, x: Item)
    requires Find(items, c.id) == Some(c) && c.parentId == Some(r)
    ensures Above(items, c.id, x) ==> Above(items, r, x)
  {
    if Above(items, c.id, x) {
      var n: nat :| AncestorWithin(items, c.id, x.parentId, n);
      AncestorThrough(items, c.id, r, x.parentId, n);
    }
  }

  /** An item lies below everything its parent lies below, and below its parent. */
  lemma SubtreeDown(items: seq<Item>, x: Item, q: Id, c: Id)
    requires x.parentId == Some(q) && Find(items, q).Some?
    ensures InSubtree(items, c, Find(items, q).value) ==> Above(items, c, x)
  {
    var y := Find(items, q).value;
    if y.id == c {
      assert AncestorWithin(items, c, x.parentId, 0);
    }
    if Above(items, c, y) {
      var m: nat :| AncestorWithin(items, c, y.parentId, m);
      assert AncestorWithin(items, c, x.parentId, m + 1);
    }
  }

  // --------------------------------------------------------------- cycles

  /** Walking up from `p` through the found item `a` costs at least one lookup,
      and what is left is the walk from `a`'s parent. */
  lemma {:induction false} CycleShortens(items: seq<Item>, a: Id, p: Option<Id>, n: nat, m: nat)
    requires AncestorWithin(items, a, p, n) && Find(items, a).Some?
    ensures EndsWithin(items, p, m) ==>
      m > 0 && EndsWithin(items, Find(items, a).value.parentId, m - 1)
    decreases n
  {
    if p.value != a {
      var z := Find(items, p.value).value;
      if m > 0 {
        CycleShortens(items, a, z.parentId, n - 1, m - 1);
        if EndsWithin(items, z.parentId, m - 1) {
          EndsMono(items, Find(items, a).value.parentId, m - 2, m - 1);
        }
      }
    }
  }

  /** An item that lies below itself has a parent walk that never ends. */
  lemma {:induction false} NeverEnds(items: seq<Item>, x: Item, n: nat, m: nat)
    requires Find(items, x.id) == Some(x) && AncestorWithin(items, x.id, x.parentId, n)
    ensures !EndsWithin(items, x.parentId, m)
    decreases m
  {
    CycleShortens(items, x.id, x.parentId, n, m);
    if m > 0 {
      NeverEnds(items, x, n, m - 1);
    }
  }

  /** In an acyclic list with unique ids no item lies below itself. */
  lemma NoSelf(items: seq<Item>, x: Item)
    requires UniqueIds(items) && Acyclic(items) && x in items
    ensures !Above(items, x.id, x)
  {
    FindUnique(items, x);
    assert Rooted(items, x.parentId);
    var m: nat :| EndsWithin(items, x.parentId, m);
    forall n: nat ensures !AncestorWithin(items, x.id, x.parentId, n) {
      if AncestorWithin(items, x.id, x.parentId, n) {
        NeverEnds(items, x, n, m);
      }
    }
  }

  /** A child's descendants are a proper part of its parent's. */
  lemma DescShrinks(items: seq<Item>, c: Item, r: Id)
    requires UniqueIds(items) && Acyclic(items) && c in items && c.parentId == Some(r)
    ensures Desc(items, c.id) < Desc(items, r)
    ensures |Desc(items, c.id)| < |Desc(items, r)|
  {
    FindUnique(items, c);
    forall x | x in Desc(items, c.id) ensures x in Desc(items, r) {
      AboveThrough(items, c, r, x);
    }
    assert AncestorWithin(items, r, c.parentId, 0);
    assert c in Desc(items, r);
    NoSelf(items, c);
    assert Desc(items, c.id) <= Desc(items, r) - {c};
    SubsetCard(Desc(items, c.id), Desc(items, r) - {c});
  }

  lemma {:induction false} SubsetCard<T>(a: set<T>, b: set<T>)
    requires a <= b
    ensures |a| <= |b|
    decreases b
  {
    if a != {} {
      var x :| x in a;
      SubsetCard(a - {x}, b - {x});
    }
  }

  // ------------------------------------------------------------- subtrees

  /** A descendant of `r` in a parent-closed part `t` hangs below a child of `r` in `t`. */
  lemma {:induction false} FindChildIn(s: seq<Item>, t: seq<Item>, r: Id, x: Item, n: nat)
    returns (c: Item)
    requires ParentClosed(s, t) && x in t && AncestorWithin(s, r, x.parentId, n)
    ensures c in t && c.parentId == Some(r) && InSubtree(s, c.id, x)
    decreases n
  {
    if x.parentId == Some(r) {
      c := x;
    } else {
      var q := x.parentId.value;
      var y := Find(s, q).value;
      c := FindChildIn(s, t, r, y, n - 1);
      SubtreeDown(s, x, q, c.id);
    }
  }

  /** Some item of `cs` has `x` in its subtree. */
  ghost predicate InSome(s: seq<Item>, cs: seq<Item>, x: Item) {
    exists j :: 0 <= j < |cs| && InSubtree(s, cs[j].id, x)
  }

  /** The subtree of `r`, within a parent-closed part `t`, is `r` and the
      subtrees of `r`'s children in `t`. */
  lemma SubtreeByChildren(s: seq<Item>, t: seq<Item>, r: Id, x: Item)
    requires UniqueIds(s) && (forall y :: y in t ==> y in s) && ParentClosed(s, t) && x in t
    ensures InSubtree(s, r, x) <==> x.id == r || InSome(s, ChildrenOf(t, Some(r)), x)
  {
    var cs := ChildrenOf(t, Some(r));
    if x.id != r && Above(s, r, x) {
      var n: nat :| AncestorWithin(s, r, x.parentId, n);
      var c := FindChildIn(s, t, r, x, n);
      var j: nat :| 0 <= j < |cs| && cs[j] == c;
    }
    if InSome(s, cs, x) {
      var j: nat :| 0 <= j < |cs| && InSubtree(s, cs[j].id, x);
      var c := cs[j];
      assert c in cs;
      FindUnique(s, c);
      FindUnique(s, x);
      AboveThrough(s, c, r, x);
      if x.id == c.id {
        assert AncestorWithin(s, r, x.parentId, 0);
      }
    }
  }

  /** Removing a subtree from a parent-closed part leaves it parent-closed. */
  lemma RemovalKeepsClosed(s: seq<Item>, t: seq<Item>, c: Id)
    requires ParentClosed(s, t)
    ensures ParentClosed(s, Pruned(t, s, c))
  {
    var t' := Pruned(t, s, c);
    forall x | x in t' && x.parentId.Some? && Find(s, x.parentId.value).Some?
      ensures Find(s, x.parentId.value).value in t'
    {
      SubtreeDown(s, x, x.parentId.value, c);
    }
  }

  /** The test "not in the subtree of `r`". */
  ghost function OutsideSubtree(s: seq<Item>, r: Id): Item -> bool {
    (x: Item) => !InSubtree(s, r, x)
  }

  /** The test "in no subtree of an item of `cs`". */
  ghost function OutsideAll(s: seq<Item>, cs: seq<Item>): Item -> bool {
    (x: Item) => !InSome(s, cs, x)
  }

  /** `t` without the subtree of `r` taken in `s`: what a cascading delete of `r` leaves. */
  ghost function Pruned(t: seq<Item>, s: seq<Item>, r: Id): (u: seq<Item>)
    ensures forall x {:trigger x in u} :: x in u <==> x in t && !InSubtree(s, r, x)
    ensures IsSubsequence(u, t)
  {
    Filter(t, OutsideSubtree(s, r))
  }

  /** `t` without the subtrees of all of `cs`. */
  ghost function PrunedAll(t: seq<Item>, s: seq<Item>, cs: seq<Item>): (u: seq<Item>)
    ensures forall x {:trigger x in u} :: x in u <==> x in t && !InSome(s, cs, x)
    ensures cs == [] ==> u == t
  {
    assert cs == [] ==> Filter(t, OutsideAll(s, cs)) == t by {
      if cs == [] {
        FilterKeepsAll(t, OutsideAll(s, cs));
      }
    }
    Filter(t, OutsideAll(s, cs))
  }

  /** Having a root among the first `i + 1` roots is having one among the
      first `i` or being below root `i`. */
  lemma InSomeStep(s: seq<Item>, cs: seq<Item>, i: nat, x: Item)
    requires i < |cs|
    ensures InSome(s, cs[..i + 1], x) <==> InSome(s, cs[..i], x) || InSubtree(s, cs[i].id, x)
  {
    if InSome(s, cs[..i + 1], x) {
      var j :| 0 <= j < i + 1 && InSubtree(s, cs[..i + 1][j].id, x);
      if j < i {
        assert cs[..i][j] == cs[..i + 1][j];
      }
    }
    if InSome(s, cs[..i], x) {
      var j :| 0 <= j < i && InSubtree(s, cs[..i][j].id, x);
      assert cs[..i + 1][j] == cs[..i][j];
    }
    if InSubtree(s, cs[i].id, x) {
      assert cs[..i + 1][i] == cs[i];
    }
  }

  /** Pruning the subtrees of a list of roots one root at a time. */
  lemma PruneStep(t: seq<Item>, s: seq<Item>, cs: seq<Item>, i: nat)
    requires i < |cs|
    ensures Pruned(PrunedAll(t, s, cs[..i]), s, cs[i].id) == PrunedAll(t, s, cs[..i + 1])
  {
    forall x | x in t
      ensures OutsideAll(s, cs[..i + 1])(x) == (OutsideAll(s, cs[..i])(x) && OutsideSubtree(s, cs[i].id)(x))
    {
      InSomeStep(s, cs, i, x);
    }
    FilterFilter(t, OutsideAll(s, cs[..i]), OutsideSubtree(s, cs[i].id), OutsideAll(s, cs[..i + 1]));
  }

  /** Pruning the subtrees of `r`'s children in a parent-closed part `t` and
      then `r` itself prunes the subtree of `r`. */
  lemma PruneByChildren(s: seq<Item>, t: seq<Item>, r: Id)
    requires UniqueIds(s) && (forall y :: y in t ==> y in s) && ParentClosed(s, t)
    ensures WithoutId(PrunedAll(t, s, ChildrenOf(t, Some(r))), r) == Pruned(t, s, r)
  {
    var cs := ChildrenOf(t, Some(r));
    forall x | x in t
      ensures OutsideSubtree(s, r)(x) == (OutsideAll(s, cs)(x) && OtherId(r)(x))
    {
      SubtreeByChildren(s, t, r, x);
    }
    FilterFilter(t, OutsideAll(s, cs), OtherId(r), OutsideSubtree(s, r));
  }

  /** `t` is a parent-closed part of the acyclic list `s` with unique ids: the
      state of the list in the middle of a cascading delete that started from `s`. */
  ghost predicate ClosedPart(s: seq<Item>, t: seq<Item>) {
    UniqueIds(s) && Acyclic(s) && (forall x {:trigger x in t} :: x in t ==> x in s) && ParentClosed(s, t)
  }

  /** Pruning a subtree from a closed part leaves a closed part. */
  lemma PruneKeepsClosedPart(s: seq<Item>, t: seq<Item>, c: Id)
    requires ClosedPart(s, t)
    ensures ClosedPart(s, Pruned(t, s, c))
  {
    RemovalKeepsClosed(s, t, c);
  }

  /** The state of a cascading delete of the children `cs` of an item, the
      first `i` of whose subtrees have been pruned from `t`, giving `u`. */
  ghost predicate PruningChildren(t: seq<Item>, s: seq<Item>, cs: seq<Item>, i: nat, u: seq<Item>) {
    i <= |cs| && u == PrunedAll(t, s, cs[..i]) && ClosedPart(s, u)
  }

  /** The number of items strictly below `r`: what a cascading delete
      recurses on. */
  ghost function Height(items: seq<Item>, r: Id): nat {
    |Desc(items, r)|
  }

  /** The next child of `r` has fewer items below it than `r`, and pruning
      its subtree advances the delete by one child. */
  lemma PruningChildrenStep(t: seq<Item>, s: seq<Item>, r: Id, i: nat, u: seq<Item>)
    requires ClosedPart(s, t) && PruningChildren(t, s, ChildrenOf(t, Some(r)), i, u)
    requires i < |ChildrenOf(t, Some(r))|
    ensures Height(s, ChildrenOf(t, Some(r))[i].id) < Height(s, r)
    ensures PruningChildren(t, s, ChildrenOf(t, Some(r)), i + 1, Pruned(u, s, ChildrenOf(t, Some(r))[i].id))
  {
    var cs := ChildrenOf(t, Some(r));
    assert cs[i] in t;
    DescShrinks(s, cs[i], r);
    PruneKeepsClosedPart(s, u, cs[i].id);
    PruneStep(t, s, cs, i);
  }

  /** Once every child's subtree is pruned, removing the item itself
      completes the cascading delete. */
  lemma PruningChildrenDone(t: seq<Item>, s: seq<Item>, r: Id, u: seq<Item>)
    requires ClosedPart(s, t)
    requires PruningChildren(t, s, ChildrenOf(t, Some(r)), |ChildrenOf(t, Some(r))|, u)
    ensures WithoutId(u, r) == Pruned(t, s, r)
  {
    var cs := ChildrenOf(t, Some(r));
    assert cs[..|cs|] == cs;
    PruneByChildren(s, t, r);
  }

  /** An id that is neither used nor named as a parent has nothing below it. */
  lemma {:induction false} UnreferencedNotAncestor(items: seq<Item>, r: Id, p: Option<Id>, n: nat)
    requires forall x :: x in items ==> x.parentId != Some(r)
    requires p != Some(r)
    ensures !AncestorWithin(items, r, p, n)
    decreases n
  {
    if p.Some? && n > 0 && Find(items, p.value).Some? {
      UnreferencedNotAncestor(items, r, Find(items, p.value).value.parentId, n - 1);
    }
  }

  /** Deleting an id that no item uses or names as its parent removes nothing. */
  lemma PruneUnreferenced(s: seq<Item>, r: Id)
    requires Fresh(s, r)
    ensures Pruned(s, s, r) == s
  {
    forall x | x in s ensures OutsideSubtree(s, r)(x) {
      forall n: nat ensures !AncestorWithin(s, r, x.parentId, n) {
        UnreferencedNotAncestor(s, r, x.parentId, n);
      }
    }
    FilterKeepsAll(s, OutsideSubtree(s, r));
  }

  /** Deleting an id that no item uses still removes every item that names
      it as its parent. */
  lemma PruneDangling(s: seq<Item>, r: Id, x: Item)
    requires Find(s, r).None? && x in s && x.parentId == Some(r)
    ensures x !in Pruned(s, s, r)
  {
    assert AncestorWithin(s, r, x.parentId, 0);
  }

  /** Lookups in a part of a list with unique ids find the same items or nothing,
      so walks in the part end no later. */
  lemma {:induction false} PartEnds(s: seq<Item>, t: seq<Item>, p: Option<Id>, n: nat)
    requires UniqueIds(s) && (forall y :: y in t ==> y in s)
    requires EndsWithin(s, p, n)
    ensures EndsWithin(t, p, n)
    decreases n
  {
    if p.Some? && Find(t, p.value).Some? {
      FindUnique(s, Find(t, p.value).value);
      PartEnds(s, t, Find(s, p.value).value.parentId, n - 1);
    }
  }

  /** Any part of an acyclic list with unique ids is acyclic. */
  lemma PartAcyclic(s: seq<Item>, t: seq<Item>)
    requires UniqueIds(s) && Acyclic(s) && (forall y :: y in t ==> y in s)
    ensures Acyclic(t)
  {
    forall x | x in t ensures Rooted(t, x.parentId) {
      assert Rooted(s, x.parentId);
      var n: nat :| EndsWithin(s, x.parentId, n);
      PartEnds(s, t, x.parentId, n);
    }
  }

  /** The reference `r`, when it resolves in `s`, resolves to an item that `t` holds. */
  ghost predicate Shown(s: seq<Item>, t: seq<Item>, r: Option<Id>) {
    r.None? || Find(s, r.value).None? || Find(s, r.value).value in t
  }

  /** The reference `r`, when it resolves, resolves to a folder. */
  predicate FolderRef(items: seq<Item>, r: Option<Id>) {
    r.None? || Find(items, r.value).None? || Find(items, r.value).value.Folder?
  }

  /** A lookup that succeeds in a part of a list with unique ids finds what
      the whole list finds. */
  lemma PartFind(s: seq<Item>, t: seq<Item>, q: Id)
    requires UniqueIds(s) && (forall y {:trigger y in t} :: y in t ==> y in s)
    requires Find(t, q).Some?
    ensures Find(s, q) == Find(t, q)
  {
    FindUnique(s, Find(t, q).value);
  }

  /** A reference the part shows is looked up in the part as in the whole list. */
  lemma ShownFind(s: seq<Item>, t: seq<Item>, q: Id)
    requires UniqueIds(s) && (forall y {:trigger y in t} :: y in t ==> y in s)
    requires Shown(s, t, Some(q))
    ensures Find(t, q) == Find(s, q)
  {
    if Find(t, q).Some? {
      PartFind(s, t, q);
    }
  }

  /** From a reference the part shows, the walk in a parent-closed part meets
      the same references as the walk in the whole list. */
  lemma {:induction false} PartAncestor(s: seq<Item>, t: seq<Item>, a: Id, p: Option<Id>, n: nat)
    requires UniqueIds(s) && (forall y {:trigger y in t} :: y in t ==> y in s) && ParentClosed(s, t)
    requires Shown(s, t, p)
    ensures AncestorWithin(t, a, p, n) <==> AncestorWithin(s, a, p, n)
    decreases n
  {
    if p.Some? && p.value != a && n > 0 {
      ShownFind(s, t, p.value);
      if Find(s, p.value).Some? {
        var w := Find(s, p.value).value;
        assert Shown(s, t, w.parentId) by {
          if w.parentId.Some? && Find(s, w.parentId.value).Some? {
            assert Find(s, w.parentId.value).value in t;
          }
        }
        PartAncestor(s, t, a, w.parentId, n - 1);
      }
    }
  }

  /** A parent-closed part answers "is `a` above this reference?" as the whole
      list does, for every reference it shows. */
  lemma PartAncestorRef(s: seq<Item>, t: seq<Item>, a: Id, p: Option<Id>)
    requires UniqueIds(s) && (forall y {:trigger y in t} :: y in t ==> y in s) && ParentClosed(s, t)
    requires Shown(s, t, p)
    ensures IsAncestorRef(t, a, p) <==> IsAncestorRef(s, a, p)
  {
    if IsAncestorRef(t, a, p) {
      var n: nat :| AncestorWithin(t, a, p, n);
      PartAncestor(s, t, a, p, n);
    }
    if IsAncestorRef(s, a, p) {
      var n: nat :| AncestorWithin(s, a, p, n);
      PartAncestor(s, t, a, p, n);
    }
  }

  /** Any part of a list with unique ids whose files head nothing has files
      that head nothing. */
  lemma PartLeaves(s: seq<Item>, t: seq<Item>)
    requires UniqueIds(s) && (forall y {:trigger y in t} :: y in t ==> y in s) && FilesAreLeaves(s)
    ensures FilesAreLeaves(t)
  {
    forall x | x in t && x.parentId.Some? && Find(t, x.parentId.value).Some?
      ensures Find(t, x.parentId.value).value.Folder?
    {
      PartFind(s, t, x.parentId.value);
    }
  }

  // ---------------------------------------------------------------- moves

  /** Walks that never meet the moved id are the same after the move. */
  lemma {:induction false} MoveUnaffected(items: seq<Item>, d: Id, t: Option<Id>, now: string, p: Option<Id>, n: nat)
    requires EndsWithin(items, p, n) && !AncestorWithin(items, d, p, n)
    ensures EndsWithin(Moved(items, d, t, now), p, n)
    decreases n
  {
    if p.Some? {
      FindAfterMove(items, d, t, now, p.value);
      if Find(items, p.value).Some? {
        MoveUnaffected(items, d, t, now, Find(items, p.value).value.parentId, n - 1);
      }
    }
  }

  /** Every id other than `d` is looked up in `moved` as in `items`. */
  ghost predicate SameOutside(items: seq<Item>, moved: seq<Item>, d: Id) {
    forall q :: q != d ==> Find(moved, q) == Find(items, q)
  }

  /** Walks that meet the moved id continue from its new parent. */
  lemma {:induction false} MoveThrough(items: seq<Item>, moved: seq<Item>, d: Id, p: Option<Id>, n: nat, m: nat)
    requires SameOutside(items, moved, d)
    requires AncestorWithin(items, d, p, n) && EndsWithin(moved, Some(d), m)
    ensures EndsWithin(moved, p, n + m)
    decreases n
  {
    if p.value == d {
      EndsMono(moved, p, m, n + m);
    } else {
      var z := Find(items, p.value).value;
      assert Find(moved, p.value) == Some(z);
      MoveThrough(items, moved, d, z.parentId, n - 1, m);
      assert EndsWithin(moved, z.parentId, n - 1 + m);
    }
  }

  /** Moving `d` under `t` keeps an acyclic list acyclic when `d` is neither
      `t` itself nor above it. */
  lemma MoveAcyclic(items: seq<Item>, d: Id, t: Option<Id>, now: string)
    requires Acyclic(items) && !IsAncestorRef(items, d, t)
    ensures Acyclic(Moved(items, d, t, now))
  {
    var moved := Moved(items, d, t, now);
    if Find(items, d).Some? {
      var k: nat :| EndsWithin(items, t, k) by { AcyclicRooted(items, t); }
      MoveUnaffected(items, d, t, now, t, k);
      assert EndsWithin(moved, Some(d), k + 1);
      forall q | q != d ensures Find(moved, q) == Find(items, q) {
        FindAfterMove(items, d, t, now, q);
      }
      forall x | x in moved ensures Rooted(moved, x.parentId) {
        var i :| 0 <= i < |moved| && moved[i] == x;
        if moved[i] != items[i] {
          assert x.parentId == t;
        } else {
          assert Rooted(items, x.parentId);
          var n: nat :| EndsWithin(items, x.parentId, n);
          if IsAncestorRef(items, d, x.parentId) {
            var j: nat :| AncestorWithin(items, d, x.parentId, j);
            MoveThrough(items, moved, d, x.parentId, j, k + 1);
          } else {
            MoveUnaffected(items, d, t, now, x.parentId, n);
          }
        }
      }
    }
  }

  /** Lists holding the same ids and the same parents at the same positions
      have the same walks. */
  lemma {:induction false} SameShapeEnds(a: seq<Item>, b: seq<Item>, p: Option<Id>, n: nat)
    requires |a| == |b| && forall i :: 0 <= i < |a| ==> a[i].id == b[i].id && a[i].parentId == b[i].parentId
    requires EndsWithin(a, p, n)
    ensures EndsWithin(b, p, n)
    decreases n
  {
    if p.Some? {
      FindIndexSameIds(a, b, p.value);
      if Find(a, p.value).Some? {
        SameShapeEnds(a, b, Find(a, p.value).value.parentId, n - 1);
      }
    }
  }

  /** Renaming touches no parent, so it keeps an acyclic list acyclic. */
  lemma RenameAcyclic(items: seq<Item>, id: Id, newName: string, now: string)
    requires Acyclic(items)
    ensures Acyclic(Renamed(items, id, newName, now))
  {
    var r := Renamed(items, id, newName, now);
    forall x | x in r ensures Rooted(r, x.parentId) {
      var i :| 0 <= i < |r| && r[i] == x;
      assert Rooted(items, items[i].parentId);
      var n: nat :| EndsWithin(items, items[i].parentId, n);
      SameShapeEnds(items, r, items[i].parentId, n);
    }
  }

  // ------------------------------------------------------------- creation

  /** Walks that never meet a fresh id are the same once an item with it is appended. */
  lemma {:induction false} AppendEnds(items: seq<Item>, z: Item, p: Option<Id>, n: nat)
    requires Fresh(items, z.id) && p != Some(z.id) && EndsWithin(items, p, n)
    ensures EndsWithin(items + [z], p, n)
    decreases n
  {
    if p.Some? {
      FindAppend(items, z, p.value);
      if Find(items, p.value).Some? {
        AppendEnds(items, z, Find(items, p.value).value.parentId, n - 1);
      }
    }
  }

  /** Appending an item with a freshly generated id keeps the list acyclic. */
  lemma AppendAcyclic(items: seq<Item>, z: Item)
    requires Acyclic(items) && Fresh(items, z.id) && z.parentId != Some(z.id)
    ensures Acyclic(items + [z])
  {
    forall x | x in items + [z] ensures Rooted(items + [z], x.parentId) {
      AcyclicRooted(items, x.parentId);
      var n: nat :| EndsWithin(items, x.parentId, n);
      AppendEnds(items, z, x.parentId, n);
    }
  }

  /** Appending an item with a fresh id under a folder (or under the root)
      keeps files at the leaves. */
  lemma AppendLeaves(items: seq<Item>, z: Item)
    requires FilesAreLeaves(items) && Fresh(items, z.id) && z.parentId != Some(z.id)
    requires FolderRef(items, z.parentId)
    ensures FilesAreLeaves(items + [z])
  {
    var r := items + [z];
    forall x | x in r && x.parentId.Some? && Find(r, x.parentId.value).Some?
      ensures Find(r, x.parentId.value).value.Folder?
    {
      FindAppend(items, z, x.parentId.value);
    }
  }

  /** A fresh id keeps ids unique when appended. */
  lemma AppendUnique(items: seq<Item>, z: Item)
    requires UniqueIds(items) && Fresh(items, z.id)
    ensures UniqueIds(items + [z])
  {
    var r := items + [z];
    forall i, j | 0 <= i < |r| && 0 <= j < |r| && r[i].id == r[j].id ensures i == j {
      if i < |items| && j < |items| {
        assert items[i].id == items[j].id;
      }
    }
  }
}
