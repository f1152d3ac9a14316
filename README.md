# Data room: a verified model of the document store and its clients

The repository is a Next.js "data room". Users sign in, then organise PDF
documents in a tree of folders: they create, upload, rename, move (by drag and
drop), delete and search. Behind the pages sits an in-memory mock backend. It
holds a user table and a flat, ordered list of items. Each item is a folder or
a file and names its parent folder through a nullable `parentId`.

This project models, in Dafny:

- **the mock backend** (`Backend`, over `Items` and `Hierarchy`). It is a
  class with `users`, `items` and `currentUser` fields that its methods update
  in place. It covers login, registration, token validation, listing,
  creation, upload, rename, move, cascading delete, search, the breadcrumb
  walk and reset.
- **the parent graph** (`Hierarchy`). It covers walks along `parentId`,
  acyclicity, ancestry, and the subtree that a cascading delete removes.
- **the client item state** (`DataRoom`). It covers the `dataRoomReducer`,
  the current-folder and search selections, and a provider class whose
  operations call the backend and dispatch actions. That includes the
  `removeRecursively` dispatch sequence.
- **the data-room page** (`View`). It covers the drag-and-drop handler with
  its `isDescendant` cycle guard, the PDF-only upload loop and the
  displayed-items choice.
- **the authentication side**:
  - the form validators and password-strength meter (`AuthValidation`);
  - the validation gate and demo login of the auth service (`AuthService`);
  - the auth reducer (`AuthReducer`).
- **smaller pieces**:
  - the file-name validator (`Storage`);
  - the upload widget's batch validation (`FileUpload`);
  - the toast queue (`Toasts`);
  - the preview modal's zoom and rotation (`FilePreview`).

Strings are `seq<char>`. Lower-casing, trimming and white space are ASCII
only, as `Text` defines them. Ids, timestamps, token stamps and generated URLs
are parameters, because the source takes them from `generateId`, `Date.now`
and `Math.random`. An id that the source generates is modelled as a fresh
parameter: no item uses it and no item names it as its parent.

The headline result is `View.DataRoomView.HandleDrop`. Every drop that the
handler lets through keeps the parent graph acyclic once the backend has
applied the move, provided every parent reference resolves to a folder (files
sit at the leaves, `Hierarchy.FilesAreLeaves`). This holds for drops onto the
root, drops of files and drops of unknown ids, which all skip the guard. The
proviso is needed: a root file dropped onto a folder whose parent is that file
would make a cycle, since the guard skips files. The page keeps files at the
leaves, because it navigates only into folders and offers only folders and the
open folder as drop targets (components/DataRoomView.tsx:163, 255, 394, 401). `View.GuardExact` shows that for a
folder, the guard refuses exactly the moves that would create a cycle. It is
proved in two settings:

- The client list is the backend's list (`View.DropKeepsAcyclic`).
- The client list is the part the page actually has. The provider keeps an
  invariant, `DataRoom.CoherentWith`, from the root-only load on: the client
  holds backend items together with their resolved parents, and the open
  folder is a folder. A drop of an item the page shows onto a folder it shows
  is then judged on the client list exactly as on the backend's list
  (`View.DropFromPart`).

Where the code and its documentation disagree, the model follows the code:

- `validatePassword` uses the lookahead pattern `(?=.*[a-zA-Z])(?=.*\d)`. Its
  `.` does not cross line terminators, so the letter and the digit must sit on
  one line. The model states this (`LetterAndDigitOnOneLine`). For single-line
  input it is the documented "contains a letter and a digit"
  (`AuthValidation.OneLineLetterAndDigit`).
- `deleteItem` of an id that no item has is a no-op only when no item names
  that id as its parent (`Hierarchy.PruneUnreferenced`). Items whose parent
  reference dangles to that id are deleted, together with everything below
  them (`Hierarchy.PruneDangling`).
- The page's `displayItems` test for a non-empty query adds nothing:
  `searchItems` already falls back to the open folder for a blank query
  (`View.DisplayItems`).

## Model

| member | source | states |
|---|---|---|
| Items.Find | services/mockBackend.ts:260 | the item found has the id and is in the list; nothing is found exactly when no item has the id |
| Items.FindFolder | services/mockBackend.ts:396-398 | the result is a folder of the list with that id; nothing is found exactly when no folder has it |
| Items.FindUnique | services/mockBackend.ts:260 | with unique ids, looking up an item's id finds that very item |
| Items.FindAppend | services/mockBackend.ts:225 | after an append, earlier lookups are unchanged, and the new item is found only under an id no earlier item had |
| Items.Renamed | services/mockBackend.ts:260-266 | an in-place rename changes only the first item with the id, and only its name and update time; an unknown id changes nothing; every position keeps its id |
| Items.Moved | services/mockBackend.ts:293-299 | an in-place move changes only that item's parent and update time; an unknown id changes nothing; every position keeps its id |
| Items.FindAfterMove | services/mockBackend.ts:293-299 | after a move, every other id is found exactly where it was |
| Items.FindUpdate | services/mockBackend.ts:260-266 | with unique ids, putting an item with the same id in place of another makes lookups of that id find the new item and leaves every other lookup unchanged |
| Items.SameIdsUnique | services/mockBackend.ts:265-266 | rewriting items without changing any position's id keeps ids unique |
| Items.ChildrenOf | services/mockBackend.ts:210 | the children of a parent are exactly the items naming it, each as often as in the list, kept in stored order |
| Items.WithoutId | services/mockBackend.ts:283 | filtering out an id keeps exactly the other items, each as often as before, in order, and is the identity when the id is absent |
| Items.MatchingItems | services/mockBackend.ts:308-311 | exactly the items whose lower-cased name contains the lower-cased query, each as often as in the list, in stored order |
| Items.EmptyQueryMatchesAll | services/mockBackend.ts:308-311 | the empty query matches every item, so searching for it returns the whole list |
| Items.FilterKeepsUnique | services/mockBackend.ts:283 | filtering a list with unique ids keeps them unique |
| Hierarchy.AcyclicRooted | services/mockBackend.ts:395-406 | on acyclic data the walk up from any reference ends, so the breadcrumb loop terminates |
| Hierarchy.AncestorStep | components/DataRoomView.tsx:140-143 | a found reference has ancestor `a` exactly when it is `a` or its parent reference has ancestor `a` |
| Hierarchy.NoSelf | services/mockBackend.ts:275-284 | on acyclic data with unique ids, no item lies below itself |
| Hierarchy.DescShrinks | hooks/useDataRoom.tsx:134-137 | a child of `r` has strictly fewer items below it than `r`, so the recursive removal terminates on acyclic data |
| Hierarchy.SubtreeByChildren | services/mockBackend.ts:275-284 | an item is in the subtree of `r` exactly when it is `r` or in the subtree of one of `r`'s children |
| Hierarchy.PruneByChildren | services/mockBackend.ts:275-284 | pruning each child's subtree and then filtering out `r` is pruning `r`'s subtree |
| Hierarchy.PruningChildrenStep | services/mockBackend.ts:277 | deleting the next child's subtree advances the cascade by one child, and that child is lower than its parent |
| Hierarchy.PruningChildrenDone | services/mockBackend.ts:283 | once all children are handled, filtering out the item completes the subtree's removal |
| Hierarchy.PruneKeepsClosedPart | services/mockBackend.ts:275-284 | mid-cascade lists stay parent-closed parts of the original list |
| Hierarchy.PruneUnreferenced | services/mockBackend.ts:272-287 | deleting an id that no item uses or names as its parent removes nothing |
| Hierarchy.PruneDangling | services/mockBackend.ts:276-283 | deleting an id that no item has still removes every item whose parent reference names it |
| Hierarchy.PartAcyclic | services/mockBackend.ts:286 | any part of an acyclic list with unique ids is acyclic, so deletion keeps acyclicity |
| Hierarchy.MoveAcyclic | services/mockBackend.ts:290-303 | moving `d` under a target that does not have `d` above it keeps the parent graph acyclic |
| Hierarchy.AppendAcyclic | services/mockBackend.ts:213-255 | appending an item with a fresh id that is not its own parent keeps the graph acyclic |
| Hierarchy.AppendUnique | services/mockBackend.ts:213-255 | appending an item with a fresh id keeps ids unique |
| Hierarchy.AppendLeaves | services/mockBackend.ts:213-255 | appending an item with a fresh id under a folder, or under the root, keeps files at the leaves |
| Hierarchy.RenameAcyclic | services/mockBackend.ts:257-270 | renaming keeps the parent graph acyclic |
| Hierarchy.ShownFind | components/DataRoomView.tsx:136 | a client list holding the backend item with an id finds the same item under that id |
| Hierarchy.PartAncestorRef | components/DataRoomView.tsx:138-145 | on a parent-closed client list that holds a reference's item, the walk up from it meets an id exactly when the walk in the backend's list does |
| Hierarchy.PartLeaves | services/mockBackend.ts:213-255 | any part of a list with unique ids and files at the leaves has files at the leaves |
| Backend.FindUser | services/mockBackend.ts:135-137 | the user found is the first stored user matching both email and password; none is found exactly when no stored user matches both |
| Backend.MockBackend.constructor | services/mockBackend.ts:5-93 | the seeded users and items with nobody logged in; the seeded item ids are unique, the parent graph acyclic and files at the leaves |
| Backend.MockBackend.Login | services/mockBackend.ts:132-155 | succeeds exactly when a stored user matches email and password; then the first such user becomes current and the result is a mock token with the public fields only; otherwise "Invalid email or password" and `currentUser` is unchanged |
| Backend.MockBackend.Register | services/mockBackend.ts:157-186 | a taken email fails with "Email already exists" and changes nothing; otherwise exactly one user with role `user` is appended and becomes current |
| Backend.MockBackend.ValidateToken | services/mockBackend.ts:188-199 | fails with "Invalid token" exactly when nobody is logged in, whatever the token; otherwise returns the current user's public fields |
| Backend.MockBackend.GetItems | services/mockBackend.ts:202-211 | exactly the items whose parent is the given one, each as often as stored, in stored order |
| Backend.MockBackend.SearchItems | services/mockBackend.ts:305-312 | exactly the items whose lower-cased name contains the lower-cased query, each as often as stored, in stored order; the empty query returns every item |
| Backend.MockBackend.CreateFolder | services/mockBackend.ts:213-229 | appends exactly one folder with the given name and parent, with no validation; ids stay unique, and acyclicity is kept unless the folder names itself as parent |
| Backend.MockBackend.UploadFile | services/mockBackend.ts:231-255 | appends exactly one file whose size and MIME type are the picked file's, with download and thumbnail URLs; earlier items are unchanged |
| Backend.MockBackend.RenameItem | services/mockBackend.ts:257-270 | an unknown id fails with "Item not found" and changes nothing; otherwise only that item's name and update time change and the updated item is returned |
| Backend.MockBackend.MoveItem | services/mockBackend.ts:290-303 | an unknown id fails with "Item not found"; otherwise only that item's parent and update time change, with no cycle check; the graph stays acyclic when the target is not below the item |
| Backend.MockBackend.DeleteItem | services/mockBackend.ts:272-288 | removes the item and every item below it and nothing else, keeping the survivors in order; ids stay unique and the graph acyclic |
| Backend.MockBackend.DeleteRecursively | services/mockBackend.ts:275-284 | each recursive call leaves the current list without the subtree of its item |
| Backend.MockBackend.DeleteEach | services/mockBackend.ts:277-280 | deleting the children one after another prunes each child's subtree in turn |
| Backend.MockBackend.GetBreadcrumb | services/mockBackend.ts:391-409 | on acyclic data, the folders from the topmost reachable one down to the given folder, each the parent of the next; empty exactly for a null, missing or non-folder id; the walk stops at the first reference that is not a folder |
| Backend.MockBackend.ResetData | services/mockBackend.ts:412-420 | empties the item list |
| Backend.WalkStep | services/mockBackend.ts:400-402 | prepending the folder found under the current id moves the breadcrumb walk one step up, with less fuel left |
| Backend.WalkDone | services/mockBackend.ts:395-408 | a walk stopped at a null, missing or non-folder reference has collected the whole breadcrumb |
| Backend.SeedUnique | services/mockBackend.ts:29-90 | the seeded item ids are pairwise distinct |
| Backend.SeedFolders | services/mockBackend.ts:29-53 | the three seeded folders are found under their ids |
| Backend.SeedWalks | services/mockBackend.ts:29-90 | the walks up from the seeded parent references end within two steps |
| Backend.SeedAcyclic | services/mockBackend.ts:29-90 | the seeded parent graph is acyclic |
| Backend.SeedLeaves | services/mockBackend.ts:29-90 | every seeded parent reference resolves to a folder |
| DataRoom.Replaced | hooks/useDataRoom.tsx:46-52 | the same length and ids at every position; each position holding the payload's id holds the payload, every other position keeps its item |
| DataRoom.Reduce | hooks/useDataRoom.tsx:35-63 | each action changes only its own part of the state: `SET_ITEMS` replaces the items and clears loading; `SET_CURRENT_FOLDER` changes only the folder; `ADD_ITEM` appends; `UPDATE_ITEM` puts the payload in place of every item with its id and is the identity for an absent id; `REMOVE_ITEM` keeps exactly the other items, each as often as before, in order; `SET_LOADING` sets the flag |
| DataRoom.CurrentItems | hooks/useDataRoom.tsx:177 | exactly the items whose parent is the open folder, each as often as stored, in stored order |
| DataRoom.SearchItems | hooks/useDataRoom.tsx:167-174 | a blank query gives the open folder's items; any other query gives exactly the matching items of every folder, each as often as stored, in stored order |
| DataRoom.WithoutIds | hooks/useDataRoom.tsx:53-57 | `REMOVE_ITEM` for each of a list of ids keeps exactly the items with other ids, each as often as before, in order |
| DataRoom.WithoutIdsAppend | hooks/useDataRoom.tsx:136-137 | removing one list of ids and then another is removing both |
| DataRoom.RemoveIdempotent | hooks/useDataRoom.tsx:53-57 | dispatching `REMOVE_ITEM` twice for an id is dispatching it once |
| DataRoom.UpdateAfterRename | hooks/useDataRoom.tsx:147-155 | with unique ids, the client's `UPDATE_ITEM` after a rename gives the list the backend holds |
| DataRoom.UpdateAfterMove | hooks/useDataRoom.tsx:157-165 | with unique ids, the client's `UPDATE_ITEM` after a move gives the list the backend holds |
| DataRoom.RemovedIsPruned | hooks/useDataRoom.tsx:129-145 | removing the ids of `r`'s subtree from the list is the backend's cascading delete of `r` |
| DataRoom.RemovingStep | hooks/useDataRoom.tsx:136 | handling one more child keeps the removed ids below `r`, children first, covering the handled children's subtrees |
| DataRoom.FinishSubtree | hooks/useDataRoom.tsx:137 | after all children, adding `r` gives exactly `r`'s subtree in children-first order |
| DataRoom.RootsCoherent | hooks/useDataRoom.tsx:74-83 | with the root open, the empty initial list and the root-only load are coherent with a well-formed backend list |
| DataRoom.WholeCoherent | hooks/useDataRoom.tsx:74-83 | the whole backend list is coherent with itself when the open folder is a folder |
| DataRoom.AppendCoherent | hooks/useDataRoom.tsx:94-123 | appending the same fresh item in the open folder on both sides keeps the lists coherent |
| DataRoom.ReplacedMembers | hooks/useDataRoom.tsx:46-52 | `UPDATE_ITEM` keeps every item with another id, holds the payload exactly when the client held the old item, and adds nothing else |
| DataRoom.UpdateCoherent | hooks/useDataRoom.tsx:147-165 | replacing one backend item by one of the same id and kind, and the client's copies likewise, keeps the lists coherent when the new parent is a shown folder and no cycle arises |
| DataRoom.RenameCoherent | hooks/useDataRoom.tsx:147-155 | the backend's rename beside the client's `UPDATE_ITEM` keeps the lists coherent |
| DataRoom.MoveCoherent | hooks/useDataRoom.tsx:157-165 | the backend's move beside the client's `UPDATE_ITEM` keeps the lists coherent when the target is a shown folder not below the moved item |
| DataRoom.ShrinkCoherent | hooks/useDataRoom.tsx:129-145 | removing items on the backend, and exactly those of them from the client, keeps the lists coherent |
| DataRoom.DeleteCoherent | hooks/useDataRoom.tsx:129-145 | the backend's cascading delete beside the client's removal of the subtree it holds keeps the lists coherent |
| DataRoom.DataRoomProvider.Dispatch | hooks/useDataRoom.tsx:72 | the reducer's result becomes the state |
| DataRoom.DataRoomProvider.LoadItems | hooks/useDataRoom.tsx:74-83 | as written: the state holds only the backend's root items and loading is cleared; with the root open, the lists are then coherent |
| DataRoom.DataRoomProvider.LoadAllItems | hooks/useDataRoom.tsx:74-83 | corrected: the state holds the backend's whole list, so the client is synchronised and, with a folder open, coherent |
| DataRoom.DataRoomProvider.CreateFolder | hooks/useDataRoom.tsx:94-104 | one folder in the open folder, appended on the backend and in the state; a synchronised client stays synchronised and a coherent one coherent |
| DataRoom.DataRoomProvider.UploadFile | hooks/useDataRoom.tsx:106-123 | one file in the open folder with the picked file's size and type, appended on both sides; a synchronised client stays synchronised and a coherent one coherent |
| DataRoom.DataRoomProvider.NavigateToFolder | hooks/useDataRoom.tsx:125-127 | only the open folder changes; opening a shown folder keeps the lists coherent |
| DataRoom.DataRoomProvider.RenameItem | hooks/useDataRoom.tsx:147-155 | an unknown id fails and leaves the state alone; otherwise the backend renames and the client replaces its copy; synchronisation and coherence are kept |
| DataRoom.DataRoomProvider.MoveItem | hooks/useDataRoom.tsx:157-165 | an unknown id fails and leaves the state alone; otherwise the backend moves and the client replaces its copy; synchronisation and acyclicity are kept, and coherence for a shown target folder not below the item |
| DataRoom.DataRoomProvider.DeleteItem | hooks/useDataRoom.tsx:129-145 | the backend prunes the subtree; the client removes exactly the ids of the subtree in its own list, children before parents; synchronisation and coherence are kept |
| DataRoom.DataRoomProvider.RemoveRecursively | hooks/useDataRoom.tsx:134-140 | dispatches `REMOVE_ITEM` for exactly `id` and every item below it in the rendered list, each item after all of its children |
| DataRoom.DataRoomProvider.RemoveChildren | hooks/useDataRoom.tsx:135-136 | the `forEach` over the children: every child's subtree is removed, below `id` only and each item after its children, and the client list loses exactly the removed ids |
| DataRoom.DataRoomProvider.Search | hooks/useDataRoom.tsx:167-174 | the provider's search: the open folder's items for a blank query, else exactly the matching items of every folder, each as often as stored, in stored order |
| DataRoom.SyncedCurrentItems | hooks/useDataRoom.tsx:177 | a synchronised client shows for the open folder exactly what the backend's `getItems` returns |
| DataRoom.RootLoadHidesNested | hooks/useDataRoom.tsx:77-78 | after the root-only load, every folder other than the root shows as empty |
| DataRoom.SeedDocumentsNotEmpty | services/mockBackend.ts:46-66 | the seeded "Documents" folder holds "Legal Documents" and "Sample Document.pdf" |
| View.IsDescendant | components/DataRoomView.tsx:138-145 | true exactly when the child item exists and the parent id lies strictly above it; false for a missing item or a root |
| View.UnresolvedNotAncestor | components/DataRoomView.tsx:142 | a reference that finds nothing, other than `a`, has no ancestor `a` |
| View.FileNotAncestor | components/DataRoomView.tsx:147 | when files head no subtrees, a file is above no reference |
| View.GuardExact | components/DataRoomView.tsx:136-151 | for a folder found in the list and a different target, the guard refuses exactly the moves that would put the folder below itself |
| View.DropKeepsAcyclic | components/DataRoomView.tsx:134-155 | on an acyclic list whose files are leaves, every drop the handler lets through, applied by the backend's move, keeps the parent graph acyclic |
| View.FileDropNeedsLeaves | components/DataRoomView.tsx:145-155 | the guard skips files, so on a list where a folder names a root file as its parent, dropping that file onto the folder is let through and the move makes an acyclic list cyclic: the files-at-leaves proviso cannot be dropped |
| View.CyclicDrop | components/DataRoomView.tsx:136-151 | the guard refuses exactly a folder found in the list dropped onto a folder found below it; it tests the type first, so only a folder drop needs an acyclic list |
| View.DropFromPart | components/DataRoomView.tsx:128-159 | on a backend list whose files are leaves, a drop the guard lets through on a parent-closed client list that shows the dragged item and the target does not put the item below itself in the backend's list, and the move keeps the backend acyclic |
| View.DisplayItems | components/DataRoomView.tsx:166 | the search results for a non-blank query, else the open folder's items |
| View.UploadingStep | components/DataRoomView.tsx:61-73 | uploading the next PDF with its fresh id into the open folder extends the uploaded prefix by one file |
| View.UploadedAppend | components/DataRoomView.tsx:67-72 | one more upload appended extends the uploaded prefix by one file |
| View.FreshIdsAfterUpload | components/DataRoomView.tsx:67-72 | after an upload with the first fresh id, the remaining ids stay fresh |
| View.DataRoomView.HandleDragStart | components/DataRoomView.tsx:109-113 | records the dragged item |
| View.DataRoomView.HandleDrop | components/DataRoomView.tsx:128-159 | no id or a drop onto itself moves nothing; a folder dropped below itself sets "Cannot move a folder into its own subfolder" and moves nothing; anything else is moved by the backend, the client replaces its copy and the error clears; the backend stays acyclic for a synchronised acyclic client whose files are leaves and, for a coherent client (coherence includes files at the leaves), whenever the dragged item and the target folder are shown, and coherence is kept |
| View.DataRoomView.HandleFileUpload | components/DataRoomView.tsx:57-84 | uploads the files in order into the open folder and stops at the first non-PDF with "Only PDF files are supported"; every earlier file is uploaded and no later one; the client list gains exactly the appended items and nothing else in its state changes; synchronisation and coherence are kept |
| AuthValidation.EmailPatternShape | utils/authValidation.ts:25-28 | an address the pattern accepts has no white space and exactly one `@`, so it is never blank |
| AuthValidation.ValidateEmail | utils/authValidation.ts:16-35 | accepts exactly non-blank addresses of the form local@domain.tld, without white space or a further `@`, of at most 254 characters; otherwise the message of the first failing check in the order required, blank, format, length |
| AuthValidation.OneLineLetterAndDigit | utils/authValidation.ts:52 | on one line, the lookahead test means "has a letter and has a digit" |
| AuthValidation.ValidatePassword | utils/authValidation.ts:38-57 | accepts exactly 6 to 128 characters with a letter and a digit on one line; otherwise the first failing check's message |
| AuthValidation.ValidateName | utils/authValidation.ts:60-83 | accepts exactly non-blank names with at least 2 trimmed characters, at most 100 raw characters, and only letters, white space, `-` and `'`; otherwise the first failing check's message |
| AuthValidation.ValidateConfirmPassword | utils/authValidation.ts:86-96 | accepts exactly a non-empty confirmation equal to the password; otherwise "Please confirm your password" or "Passwords do not match" |
| AuthValidation.Present | utils/authValidation.ts:103-106 | the errors among the checks; none exactly when every check passed |
| AuthValidation.FourInOrder | utils/authValidation.ts:117-128 | the four registration errors come in form order, each field at most once |
| AuthValidation.ValidateLoginCredentials | utils/authValidation.ts:99-112 | the email error, then the password error, each if any; valid exactly when there is none |
| AuthValidation.ValidateRegistrationData | utils/authValidation.ts:115-134 | the name, email, password and confirmation errors in that order, at most four; valid exactly when there is none |
| AuthValidation.Score | utils/authValidation.ts:143-167 | at most 5, and 5 exactly when all five criteria hold |
| AuthValidation.Suggestions | utils/authValidation.ts:143-167 | one piece of advice per missed criterion, so advice count plus score is 5 |
| AuthValidation.Hints | utils/authValidation.ts:143-167 | the hints use only the given advice |
| AuthValidation.HintsFive | utils/authValidation.ts:143-167 | for five criteria, the hints are the meter's five checks in order |
| AuthValidation.HintsMissed | utils/authValidation.ts:143-167 | with distinct advice, a piece of advice is among the hints exactly when its criterion is missed |
| AuthValidation.HintsOrdered | utils/authValidation.ts:143-167 | the hints keep the order of the advice |
| AuthValidation.SuggestionsMissed | utils/authValidation.ts:143-167 | each piece of advice is suggested exactly when its criterion is missed, and the suggestions keep the meter's order |
| AuthValidation.GetPasswordStrength | utils/authValidation.ts:137-197 | score plus suggestions is 5, the label follows the score, and "Strong" exactly when all five criteria hold |
| AuthService.Messages | services/authService.ts:44 | the error messages in order |
| AuthService.Login | services/authService.ts:40-58 | failed validation rejects with the joined messages and leaves the backend alone; otherwise a failed lookup rejects with "Invalid email or password" and signs nobody in, and a success signs in the first matching user and returns that user's token and public fields |
| AuthService.Register | services/authService.ts:61-91 | failed validation rejects with the joined messages and changes nothing; when every check passes, a taken email rejects with "Email already exists" and changes nothing, and otherwise one user built from name, email and password (never the confirmation) is appended, signed in and returned with its token |
| AuthService.DemoLogin | services/authService.ts:152-197 | succeeds exactly for a demo email with its own password, returning a demo token and the account without its password; otherwise "Invalid email or password" |
| AuthService.DemoMatchesSeed | services/authService.ts:156-178 | demo login accepts exactly the email and password pairs of the backend's seeded users |
| AuthService.SeedCredentialsValid | services/authService.ts:42-46 | the seeded credentials pass the login form's validation |
| AuthReducer.Reduce | hooks/useAuth.tsx:34-74 | `AUTH_START` sets loading and clears the error; `AUTH_SUCCESS` signs in the payload; `AUTH_ERROR` signs out with the message; `LOGOUT` yields the initial state; `CLEAR_ERROR` changes only the error |
| AuthReducer.ReducePreservesConsistent | hooks/useAuth.tsx:34-74 | every action keeps `isAuthenticated` in step with `user` |
| AuthReducer.ReachableConsistent | hooks/useAuth.tsx:27-74 | every state reachable from the initial state has `isAuthenticated` exactly when a user is set |
| AuthReducer.LogoutIdempotent | hooks/useAuth.tsx:58-65 | logging out twice is logging out once, and both give the initial state |
| AuthReducer.LogoutResets | hooks/useAuth.tsx:27-65 | whatever came before, a trailing logout lands on the initial state |
| Storage.ValidateFileName | utils/storage.ts:65-80 | accepts exactly non-blank names of at most 255 characters without `< > : " / \ \| ? *`; otherwise the first failing check's message, in the order blank, length, characters |
| Storage.FindForbidden | utils/storage.ts:74-75 | the first position holding a forbidden character, or none when there is none |
| Storage.AcceptedNameShape | utils/storage.ts:65-80 | an accepted name has 1 to 255 characters, a non-empty trimmed form and no forbidden character |
| FileUpload.AnyMatches | components/ui/FileUpload.tsx:44-49 | true exactly when some accepted-type entry matches |
| FileUpload.ValidateFile | components/ui/FileUpload.tsx:38-57 | accepts exactly a file within the size limit (0 disables it) whose type some entry matches (an empty list accepts all); the size message comes before the type message |
| FileUpload.DefaultAcceptance | components/ui/FileUpload.tsx:26-27 | with the defaults, a file is accepted exactly when it is at most 10 MiB and its name ends in `.pdf` in any case or its type is `application/pdf` |
| FileUpload.BatchErrors | components/ui/FileUpload.tsx:71-78 | at most one message per file; none exactly when every file passes |
| FileUpload.BatchErrorsPerFile | components/ui/FileUpload.tsx:71-78 | one message per refused file, in the order of the refused files, each the file's name, `: ` and its `validateFile` error |
| FileUpload.BatchValidFilter | components/ui/FileUpload.tsx:71-78 | the kept files are the batch filtered by `validateFile`: each accepted file as often as in the batch, in order, and no refused file |
| FileUpload.BatchSplits | components/ui/FileUpload.tsx:71-78 | every file is refused or kept, never both, so the messages number the files minus the kept files |
| FileUpload.NoErrorsKeepsAll | components/ui/FileUpload.tsx:71-83 | a batch with no refusals keeps every file, in order |
| FileUpload.InitialUploads | components/ui/FileUpload.tsx:92-96 | one fresh uploading row at progress 0 per file |
| FileUpload.FileUploader.HandleFiles | components/ui/FileUpload.tsx:59-98 | too many files refuses the batch; any refused file cancels the whole batch with the joined messages; otherwise every file starts uploading |
| FileUpload.FileUploader.RemoveUpload | components/ui/FileUpload.tsx:180-182 | removes exactly the row at the index and keeps the rest in order; any other index changes nothing |
| Toasts.Reduce | components/ui/Toast.tsx:34-54 | `ADD_TOAST` appends; `REMOVE_TOAST` keeps exactly the toasts with other ids, each as often as before, in order; `CLEAR_ALL` empties the list |
| Toasts.RemoveUnknown | components/ui/Toast.tsx:41-45 | removing an id no toast carries changes nothing |
| Toasts.AddThenRemove | components/ui/Toast.tsx:76-87 | a toast added under a fresh id and then auto-removed leaves the queue as it was |
| Toasts.Duration | components/ui/Toast.tsx:83 | the toast's own duration when non-zero, else 5000 |
| Toasts.Notice | components/ui/Toast.tsx:97-111 | the toast each helper builds; errors last 7000, the others 5000 |
| FilePreview.ZoomStaysLevel | components/ui/FilePreview.tsx:178-188 | zooming keeps the zoom a multiple of 25 within 25 to 200 |
| FilePreview.ZoomRoundTrip | components/ui/FilePreview.tsx:178-188 | zooming in and back out returns to the same level, except at the bounds, where the clamp holds |
| FilePreview.RotationStaysQuarter | components/ui/FilePreview.tsx:195 | a rotation stays a quarter turn and always changes |
| FilePreview.FourRotations | components/ui/FilePreview.tsx:195 | four rotations return to the start |
| FilePreview.ResetViewStaysValid | components/ui/FilePreview.tsx:18-19 | from 100% and upright, any run of button presses keeps zoom and rotation in range |
| FilePreview.Preview | components/ui/FilePreview.tsx:55-139 | nothing without a file, the spinner while loading, then PDF exactly for `application/pdf`, image for other `image/` types, else the fallback |
| FilePreview.ControlsMatchPreview | components/ui/FilePreview.tsx:175 | the zoom and rotate buttons appear exactly for files shown as PDF or image |
| FilePreview.PreviewModal.constructor | components/ui/FilePreview.tsx:18-20 | zoom 100, upright, loading |
| FilePreview.PreviewModal.Open | components/ui/FilePreview.tsx:22-31 | opening a file resets zoom and rotation and shows the spinner; otherwise nothing changes |
| FilePreview.PreviewModal.ZoomIn | components/ui/FilePreview.tsx:188 | `min(200, zoom + 25)`, staying in range |
| FilePreview.PreviewModal.ZoomOut | components/ui/FilePreview.tsx:178 | `max(25, zoom - 25)`, staying in range |
| FilePreview.PreviewModal.Rotate | components/ui/FilePreview.tsx:195 | `(rotation + 90) % 360`, staying a quarter turn |

## Left out

- Browser storage is not modelled: `saveData`, `loadData`, `localStorage` and the token storage of the auth hook. The backend is the in-memory record only.
- The real-API branches of the auth service, the API interceptor and the websocket service are not modelled. They are network clients. `AuthService` models the mock-backend configuration only.
- Timers are not modelled: `delay`, the simulated upload progress loop, toast auto-removal and the preview loading timer. `FilePreview.PreviewModal.FinishLoading` stands for the timer firing.
- `generateId`, `Date.now`, `Math.random` and `toISOString` are parameters. Their values only have to be fresh where ids are created.
- `formatFileSize` uses floating-point logarithms and `toFixed`. It becomes the `sizeText` parameter of `FileUpload`.
- `downloadFile`'s PDF blob, rendering, icons and the other UI components are not modelled.
- Unicode is not modelled: `toLowerCase`, `trim` and `\s` are ASCII only.
- The toast's action button, the `success` toast after an upload, and FileUpload's `isUploading` flag are not modelled.
- The auth service's `refreshToken`, `logout`, `validateToken` and `getCurrentUser` are not modelled. They only touch storage and the network.
- `demoLogin`'s table is a plain object. The model does not capture that an email like `constructor` finds an inherited prototype member. Such a lookup still fails, because the member has no matching password.
- Backend.MockBackend.DeleteItem: requires the whole list acyclic, which is stronger than the source needs: `deleteRecursively` recurses without end only when the cascade of children from the deleted id reaches a cycle, and a cycle elsewhere in the list does no harm.
- Backend.MockBackend.GetBreadcrumb: requires the whole list acyclic, which is stronger than the source needs: the loop runs forever only when the walk up from the given folder reaches a cycle, and a cycle elsewhere in the list does no harm.
- View.IsDescendant: requires an acyclic client list, for the same reason.
- View.DataRoomView.HandleDrop: requires an acyclic client list only when a folder found in that list is dropped onto a folder id, the one case in which its guard calls `isDescendant`; the clause for a synchronised client also assumes that list acyclic with files at the leaves, which the page keeps (see above). The source does not await `moveItem`; the model applies the move at once. For a coherent client, acyclicity is promised only for drops whose dragged item and target the page shows, which is all the page offers; a target folder the page does not hold can receive a drop that creates a cycle, because the guard does not see it.
- DataRoom.DataRoomProvider.DeleteItem: requires the client list to have unique ids and no cycle, because `removeRecursively` recurses without end on a cycle.
- DataRoom.DataRoomProvider.RemoveRecursively: requires the same of the rendered list.
- DataRoom.DataRoomProvider.RemoveChildren: requires the same of the rendered list; it is the loop of `removeRecursively` as a method of its own, so the two are proved separately.
- Backend.MockBackend.CreateFolder: requires the new id to be fresh. This models `generateId`, not a check the source makes. The same holds for Backend.MockBackend.UploadFile, DataRoom.DataRoomProvider.CreateFolder and DataRoom.DataRoomProvider.UploadFile.
- View.DataRoomView.HandleFileUpload: requires one fresh id per file, for the same reason.
- Toasts.Duration: durations are natural numbers. Negative or non-numeric durations, which JavaScript's `||` would also pass through or replace, are not modelled.
- FileUpload.FileUploader.HandleFiles: stops where uploading starts. The progress simulation, the `onFilesUploaded` call and its error handling are left out as timers and callbacks.
- The upload loop's error toast is not modelled. `View.DataRoomView.HandleFileUpload` sets the page error only.

## Findings

| source | as written | input that shows it | evidently intended | confidence | as-written member | corrected member |
|---|---|---|---|---|---|---|
| hooks/useDataRoom.tsx:74-83 | `loadItems` stores `getItems(null)`, the root items only, although it names them `allItems` and every later selection filters the client list by folder | the seeded store: after the load, opening "Documents" (`folder-1`) shows nothing, although the backend holds "Legal Documents" and "Sample Document.pdf" in it | store the backend's whole list, so the client list matches the backend | not executed | DataRoom.DataRoomProvider.LoadItems, DataRoom.RootLoadHidesNested, DataRoom.SeedDocumentsNotEmpty | DataRoom.DataRoomProvider.LoadAllItems, DataRoom.SyncedCurrentItems |
