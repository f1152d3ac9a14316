/** The in-memory mock backend (services/mockBackend.ts): a user table with a
    current-user slot and the flat item list, updated in place by its
    operations. Ids, timestamps and token stamps, which the source draws from
    `generateId`, `Date.now` and `toISOString`, are parameters. */
module Backend {

  import opened Wrappers
  import opened Seqs
  import opened Items
  import opened Hierarchy

  /** A stored user, password included. */
  datatype UserRecord = UserRecord(id: string, name: string, email: string, role: string, password: string)

  /** The user fields returned to callers: never the password. */
  datatype PublicUser = PublicUser(id: string, name: string, email: string, role: string)

  datatype AuthResponse = AuthResponse(token: string, user: PublicUser)

  function Public(u: UserRecord): PublicUser {
    PublicUser(u.id, u.name, u.email, u.role)
  }

  /** `mock_token_${id}_${Date.now()}`, the clock reading given as `stamp`. */
  function MockToken(id: string, stamp: string): string {
    "mock_token_" + id + "_" + stamp
  }

  /** `/api/files/${generateId()}/download` and `.../thumbnail`. */
  function FileUrl(fileId: string, kind: string): string {
    "/api/files/" + fileId + "/" + kind
  }

  function SeedUsers(): seq<UserRecord> {
    [ UserRecord("1", "Admin User", "admin@dataroom.com", "admin", "admin123"),
      UserRecord("2", "Regular User", "user@dataroom.com", "user", "user123"),
      UserRecord("3", "Viewer User", "viewer@dataroom.com", "viewer", "viewer123") ]
  }

  function SeedItems(): seq<Item> {
    [ Folder("folder-1", "Documents", None, "2024-01-15T10:00:00Z", "2024-01-15T10:00:00Z"),
      Folder("folder-2", "Projects", None, "2024-01-16T11:00:00Z", "2024-01-16T11:00:00Z"),
      Folder("folder-3", "Legal Documents", Some("folder-1"), "2024-01-17T12:00:00Z", "2024-01-17T12:00:00Z"),
      File("file-1", "Sample Document.pdf", Some("folder-1"), "2024-01-18T13:00:00Z", "2024-01-18T13:00:00Z",
           1024000, "application/pdf", Some("/api/files/file-1/download"), Some("/api/files/file-1/thumbnail")),
      File("file-2", "Project Proposal.pdf", Some("folder-2"), "2024-01-19T14:00:00Z", "2024-01-19T14:00:00Z",
           2048000, "application/pdf", Some("/api/files/file-2/download"), Some("/api/files/file-2/thumbnail")),
      File("file-3", "Contract.pdf", Some("folder-3"), "2024-01-20T15:00:00Z", "2024-01-20T15:00:00Z",
           512000, "application/pdf", Some("/api/files/file-3/download"), Some("/api/files/file-3/thumbnail")) ]
  }

  /** `u` sits at some index of `users` where it matches, and no user before it
      has this email and password. */
  predicate FirstMatch(users: seq<UserRecord>, email: string, password: string, u: UserRecord) {
    exists i :: 0 <= i < |users| && users[i] == u && u.email == email && u.password == password &&
      forall j :: 0 <= j < i ==> !(users[j].email == email && users[j].password == password)
  }

  /** `users.find(u => u.email === email && u.password === password)`. */
  function FindUser(users: seq<UserRecord>, email: string, password: string): (r: Option<UserRecord>)
    ensures r.Some? ==> r.value in users && r.value.email == email && r.value.password == password
    ensures r.Some? ==> FirstMatch(users, email, password, r.value)
    ensures r.None? <==> forall u :: u in users ==> !(u.email == email && u.password == password)
  {
    var r := FindFirst(users, (u: UserRecord) => u.email == email && u.password == password);
    assert r.None? ==> forall u :: u in users ==> !(u.email == email && u.password == password) by {
      if r.None? {
        forall u | u in users ensures !(u.email == email && u.password == password) {
          var i :| 0 <= i < |users| && users[i] == u;
        }
      }
    }
    r
  }

  /** `users.find(u => u.email === email)` is truthy. */
  predicate EmailTaken(users: seq<UserRecord>, email: string) {
    exists u :: u in users && u.email == email
  }

  class MockBackend {
    var users: seq<UserRecord>
    var items: seq<Item>
    var currentUser: Option<UserRecord>

    /** Item ids stay unique: every id the store adds is freshly generated. */
    ghost predicate Valid()
      reads this
    {
      UniqueIds(items)
    }

    /** The seeded store, nobody logged in. */
    constructor ()
      ensures users == SeedUsers() && items == SeedItems() && currentUser == None
      ensures Valid() && Acyclic(items) && FilesAreLeaves(items)
    {
      users := SeedUsers();
      items := SeedItems();
      currentUser := None;
      SeedUnique();
      SeedAcyclic();
      SeedLeaves();
    }

    /** `login`: the first user with this email and password becomes the
        current user; otherwise "Invalid email or password" and nothing changes. */
    method Login(email: string, password: string, stamp: string) returns (r: Result<AuthResponse>)
      modifies this`currentUser
      ensures r.Ok? <==> exists u :: u in users && u.email == email && u.password == password
      ensures r.Err? ==> r.message == "Invalid email or password" && currentUser == old(currentUser)
      ensures r.Ok? ==> (currentUser.Some? && currentUser.value in users &&
        currentUser.value.email == email && currentUser.value.password == password &&
        FirstMatch(users, email, password, currentUser.value) &&
        r.value == AuthResponse(MockToken(currentUser.value.id, stamp), Public(currentUser.value)))
    {
      var user := FindUser(users, email, password);
      if user.None? {
        return Err("Invalid email or password");
      }
      currentUser := user;
      r := Ok(AuthResponse(MockToken(user.value.id, stamp), Public(user.value)));
    }

    /** `register`: a taken email fails with "Email already exists"; otherwise
        one user with role `user` is appended and becomes the current user. */
    method Register(name: string, email: string, password: string, newId: string, stamp: string)
      returns (r: Result<AuthResponse>)
      modifies this`users, this`currentUser
      ensures EmailTaken(old(users), email) ==>
        r == Err("Email already exists") && users == old(users) && currentUser == old(currentUser)
      ensures !EmailTaken(old(users), email) ==>
        var u := UserRecord(newId, name, email, "user", password);
        users == old(users) + [u] && currentUser == Some(u) &&
        r == Ok(AuthResponse(MockToken(newId, stamp), Public(u)))
    {
      var existing := FindFirst(users, (u: UserRecord) => u.email == email);
      if existing.Some? {
        return Err("Email already exists");
      }
      assert !EmailTaken(users, email) by {
        forall u | u in users ensures u.email != email {
          var i :| 0 <= i < |users| && users[i] == u;
        }
      }
      var newUser := UserRecord(newId, name, email, "user", password);
      users := users + [newUser];
      currentUser := Some(newUser);
      r := Ok(AuthResponse(MockToken(newId, stamp), Public(newUser)));
    }

    /** `validateToken`: whatever the token, fails with "Invalid token" exactly
        when nobody is logged in, else returns the current user's public fields. */
    function ValidateToken(): (r: Result<PublicUser>)
      reads this
      ensures r.Err? <==> currentUser.None?
      ensures r.Err? ==> r.message == "Invalid token"
      ensures r.Ok? ==> (r.value.id == currentUser.value.id && r.value.name == currentUser.value.name &&
        r.value.email == currentUser.value.email && r.value.role == currentUser.value.role)
    {
      if currentUser.None? then Err("Invalid token") else Ok(Public(currentUser.value))
    }

    /** `getItems(parentId)`: the children of `parentId` (the roots for `None`), in stored order. */
    function GetItems(parentId: Option<Id>): (r: seq<Item>)
      reads this
      ensures forall x {:trigger x in r} :: x in r <==> x in items && x.parentId == parentId
      ensures forall x :: multiset(r)[x] == if x.parentId == parentId then multiset(items)[x] else 0
      ensures IsSubsequence(r, items)
    {
      ChildrenOf(items, parentId)
    }

    /** `searchItems(query)`: every item whose lower-cased name contains the
        lower-cased query, in stored order; the empty query returns all items. */
    function SearchItems(query: string): (r: seq<Item>)
      reads this
      ensures forall x :: x in r <==> x in items && NameMatches(x, query)
      ensures forall x :: multiset(r)[x] == if NameMatches(x, query) then multiset(items)[x] else 0
      ensures IsSubsequence(r, items)
      ensures query == "" ==> r == items
    {
      EmptyQueryMatchesAll(items);
      MatchingItems(items, query)
    }

    /** `createFolder`: appends one folder with a fresh id, no name or parent check. */
    method CreateFolder(name: string, parentId: Option<Id>, id: Id, now: string) returns (f: Item)
      requires Valid() && Fresh(items, id)
      modifies this`items
      ensures f == Folder(id, name, parentId, now, now)
      ensures items == old(items) + [f]
      ensures Valid()
      ensures Acyclic(old(items)) && parentId != Some(id) ==> Acyclic(items)
    {
      f := Folder(id, name, parentId, now, now);
      AppendUnique(items, f);
      if Acyclic(items) && parentId != Some(id) {
        AppendAcyclic(items, f);
      }
      items := items + [f];
    }

    /** `uploadFile`: appends one file with a fresh id whose size and MIME type
        are the picked file's; the URLs embed two further generated ids. */
    method UploadFile(name: string, file: LocalFile, parentId: Option<Id>, id: Id,
                      urlId: string, thumbnailId: string, now: string) returns (f: Item)
      requires Valid() && Fresh(items, id)
      modifies this`items
      ensures f.File? && f.id == id && f.name == name && f.parentId == parentId
      ensures f.size == file.size && f.mimeType == file.mimeType
      ensures f.url == Some(FileUrl(urlId, "download")) && f.thumbnailUrl == Some(FileUrl(thumbnailId, "thumbnail"))
      ensures f.createdAt == now && f.updatedAt == now
      ensures items == old(items) + [f]
      ensures Valid()
      ensures Acyclic(old(items)) && parentId != Some(id) ==> Acyclic(items)
    {
      f := File(id, name, parentId, now, now, file.size, file.mimeType,
                Some(FileUrl(urlId, "download")), Some(FileUrl(thumbnailId, "thumbnail")));
      AppendUnique(items, f);
      if Acyclic(items) && parentId != Some(id) {
        AppendAcyclic(items, f);
      }
      items := items + [f];
    }

    /** `renameItem`: "Item not found" for an unknown id; otherwise only that
        item's name and update time change, and the updated item is returned. */
    method RenameItem(id: Id, newName: string, now: string) returns (r: Result<Item>)
      requires Valid()
      modifies this`items
      ensures Find(old(items), id).None? ==> r == Err("Item not found") && items == old(items)
      ensures Find(old(items), id).Some? ==>
        r == Ok(Find(old(items), id).value.(name := newName, updatedAt := now)) &&
        items == Renamed(old(items), id, newName, now)
      ensures Valid()
    {
      var item := Find(items, id);
      if item.None? {
        return Err("Item not found");
      }
      SameIdsUnique(items, Renamed(items, id, newName, now));
      items := Renamed(items, id, newName, now);
      r := Ok(item.value.(name := newName, updatedAt := now));
    }

    /** `moveItem`: "Item not found" for an unknown id; otherwise only that
        item's parent and update time change. No cycle or target check. */
    method MoveItem(id: Id, newParentId: Option<Id>, now: string) returns (r: Result<Item>)
      requires Valid()
      modifies this`items
      ensures Find(old(items), id).None? ==> r == Err("Item not found") && items == old(items)
      ensures Find(old(items), id).Some? ==>
        r == Ok(Find(old(items), id).value.(parentId := newParentId, updatedAt := now)) &&
        items == Moved(old(items), id, newParentId, now)
      ensures Valid()
      ensures Acyclic(old(items)) && !IsAncestorRef(old(items), id, newParentId) ==> Acyclic(items)
    {
      var item := Find(items, id);
      if item.None? {
        return Err("Item not found");
      }
      SameIdsUnique(items, Moved(items, id, newParentId, now));
      if Acyclic(items) && !IsAncestorRef(items, id, newParentId) {
        MoveAcyclic(items, id, newParentId, now);
      }
      items := Moved(items, id, newParentId, now);
      r := Ok(item.value.(parentId := newParentId, updatedAt := now));
    }

    /** `deleteItem`: removes the item and everything below it, children first,
        keeping the survivors in order. On cyclic data the source recurses
        without end, hence the acyclicity requirement. */
    method DeleteItem(id: Id)
      requires Valid() && Acyclic(items)
      modifies this`items
      ensures items == Pruned(old(items), old(items), id)
      ensures Valid() && Acyclic(items)
    {
      ghost var s := items;
      assert ClosedPart(s, items);
      DeleteRecursively(id, s);
      FilterKeepsUnique(s, OutsideSubtree(s, id));
      PartAcyclic(s, items);
    }

    /** `deleteRecursively(itemId)`: deletes the subtree of each child found in
        the current list, then the item itself. `s` is the list the delete
        started from; the current list is a parent-closed part of it. */
    method DeleteRecursively(itemId: Id, ghost s: seq<Item>)
      requires ClosedPart(s, items)
      modifies this`items
      ensures items == Pruned(old(items), s, itemId)
      decreases Height(s, itemId), 1
    {
      ghost var t := items;
      var children := ChildrenOf(items, Some(itemId));
      DeleteEach(children, itemId, s);
      PruningChildrenDone(t, s, itemId, items);
      items := WithoutId(items, itemId);
    }

    /** `children.forEach(child => deleteRecursively(child.id))` for the
        children `cs` of `r`: prunes their subtrees one after the other. */
    method DeleteEach(cs: seq<Item>, ghost r: Id, ghost s: seq<Item>)
      requires ClosedPart(s, items) && cs == ChildrenOf(items, Some(r))
      modifies this`items
      ensures PruningChildren(old(items), s, cs, |cs|, items)
      decreases Height(s, r), 0
    {
      ghost var t := items;
      var i := 0;
      while i < |cs|
        invariant PruningChildren(t, s, cs, i, items)
      {
        PruningChildrenStep(t, s, r, i, items);
        DeleteRecursively(cs[i].id, s);
        i := i + 1;
      }
    }

    /** `getBreadcrumb(folderId)`: the folders from the root down to `folderId`,
        each the parent of the next; the walk stops at a null, missing or
        non-folder reference. Loops forever on cyclic data, hence the requirement. */
    method GetBreadcrumb(folderId: Option<Id>) returns (path: seq<Item>)
      requires Valid() && Acyclic(items)
      ensures FolderChain(items, path)
      ensures path == [] <==> folderId.None? || FindFolder(items, folderId.value).None?
      ensures path != [] ==> Some(path[|path| - 1].id) == folderId
      ensures path != [] ==> path[0].parentId.None? || FindFolder(items, path[0].parentId.value).None?
    {
      path := [];
      var currentId := folderId;
      ghost var n: nat :| EndsWithin(items, currentId, n) by { AcyclicRooted(items, folderId); }
      while currentId.Some?
        invariant Walking(items, folderId, currentId, path, n)
        decreases n
      {
        var folder := FindFolder(items, currentId.value);
        if folder.None? {
          break;
        }
        WalkStep(items, folderId, currentId, path, n, folder.value);
        path := [folder.value] + path;
        currentId := folder.value.parentId;
        n := n - 1;
      }
      WalkDone(items, folderId, currentId, path, n);
    }

    /** `resetData`: empties the item list, keeping users and the current user. */
    method ResetData()
      modifies this`items
      ensures items == [] && Valid()
    {
      items := [];
    }
  }

  /** `path` is a chain of folders of `items`, each found under its own id and
      each the parent of the next. */
  predicate FolderChain(items: seq<Item>, path: seq<Item>) {
    (forall i :: 0 <= i < |path| ==> path[i] in items && path[i].Folder?) &&
    (forall i :: 0 <= i < |path| ==> FindFolder(items, path[i].id) == Some(path[i])) &&
    (forall i :: 0 < i < |path| ==> path[i].parentId == Some(path[i - 1].id))
  }

  /** The breadcrumb walk has collected `path` and is about to look up
      `currentId`, with at most `n` lookups left before the walk ends. */
  predicate Walking(items: seq<Item>, folderId: Option<Id>, currentId: Option<Id>, path: seq<Item>, n: nat) {
    EndsWithin(items, currentId, n) && FolderChain(items, path) &&
    (path == [] ==> currentId == folderId) &&
    (path != [] ==> Some(path[|path| - 1].id) == folderId && currentId == path[0].parentId)
  }

  /** Prepending the folder found under `currentId` moves the walk one step up. */
  lemma WalkStep(items: seq<Item>, folderId: Option<Id>, currentId: Option<Id>, path: seq<Item>, n: nat, f: Item)
    requires UniqueIds(items) && Walking(items, folderId, currentId, path, n)
    requires currentId.Some? && FindFolder(items, currentId.value) == Some(f)
    ensures n > 0 && Walking(items, folderId, f.parentId, [f] + path, n - 1)
  {
    FindFolderUnique(items, currentId.value);
    ChainPrepend(items, f, path);
  }

  /** A walk that has reached a null, missing or non-folder reference has
      collected the whole breadcrumb. */
  lemma WalkDone(items: seq<Item>, folderId: Option<Id>, currentId: Option<Id>, path: seq<Item>, n: nat)
    requires Walking(items, folderId, currentId, path, n)
    requires currentId.None? || FindFolder(items, currentId.value).None?
    ensures FolderChain(items, path)
    ensures path == [] <==> folderId.None? || FindFolder(items, folderId.value).None?
    ensures path != [] ==> Some(path[|path| - 1].id) == folderId
    ensures path != [] ==> path[0].parentId.None? || FindFolder(items, path[0].parentId.value).None?
  {
    if path != [] {
      var last := path[|path| - 1];
      assert FindFolder(items, last.id) == Some(last);
    }
  }

  /** A chain grows at its root end by the folder its first element names as parent. */
  lemma ChainPrepend(items: seq<Item>, f: Item, path: seq<Item>)
    requires FolderChain(items, path) && FindFolder(items, f.id) == Some(f)
    requires path != [] ==> path[0].parentId == Some(f.id)
    ensures FolderChain(items, [f] + path)
  {
    var p := [f] + path;
    assert forall i :: 0 < i < |p| ==> p[i] == path[i - 1];
  }

  /** The seeded item ids are pairwise distinct. */
  lemma SeedUnique()
    ensures UniqueIds(SeedItems())
  {
    var s := SeedItems();
    forall i, j | 0 <= i < |s| && 0 <= j < |s| && s[i].id == s[j].id ensures i == j {
      assert |s[i].id| == |s[j].id| && s[i].id[|s[i].id| - 1] == s[j].id[|s[j].id| - 1];
    }
  }

  /** The three seeded folders are found under their ids. */
  lemma SeedFolders()
    ensures var s := SeedItems();
      Find(s, s[0].id) == Some(s[0]) && Find(s, s[1].id) == Some(s[1]) && Find(s, s[2].id) == Some(s[2])
  {
    var s := SeedItems();
    SeedUnique();
    FindUnique(s, s[0]);
    FindUnique(s, s[1]);
    FindUnique(s, s[2]);
  }

  /** The walks up from the seeded parent references end: "Documents" and
      "Projects" are roots, and "Legal Documents" sits in "Documents". */
  lemma SeedWalks()
    ensures var s := SeedItems();
      EndsWithin(s, s[0].parentId, 0) && EndsWithin(s, s[2].parentId, 1) &&
      EndsWithin(s, s[4].parentId, 1) && EndsWithin(s, s[5].parentId, 2)
  {
    SeedFolders();
  }

  /** In the seeded list every walk up ends. */
  lemma SeedAcyclic()
    ensures Acyclic(SeedItems())
  {
    var s := SeedItems();
    SeedWalks();
    forall i | 0 <= i < |s| ensures Rooted(s, s[i].parentId) {
      if i == 0 || i == 1 {
        assert s[i].parentId == s[0].parentId;
      } else if i == 2 || i == 3 {
        assert s[i].parentId == s[2].parentId;
      } else if i == 4 {
      } else {
        assert i == 5;
      }
    }
  }

  /** In the seeded list every parent reference resolves to a folder. */
  lemma SeedLeaves()
    ensures FilesAreLeaves(SeedItems())
  {
    var s := SeedItems();
    SeedFolders();
    forall i | 0 <= i < |s| && s[i].parentId.Some? && Find(s, s[i].parentId.value).Some?
      ensures Find(s, s[i].parentId.value).value.Folder?
    {
      if i == 2 || i == 3 {
        assert s[i].parentId == Some(s[0].id);
      } else if i == 4 {
        assert s[i].parentId == Some(s[1].id);
      } else if i == 5 {
        assert s[i].parentId == Some(s[2].id);
      }
    }
  }
}
