# Helena: a verified model

Helena is a desktop HTTP client. A workspace holds collections, a collection is a tree of folders and
requests, a request can chain other requests, and collections live on disk as OpenCollection YAML. This
project models the parts of it that carry the most state and arithmetic, and proves what they promise:

- **Tree edits** (`Tree`, `Census`, `ChainRefs`, `Cascade`, `MoveNode`, `Edits`, `Session`). A node has a
  positional address, a stable model ID and a path of names. Rename, move, delete, undo and duplicate are
  methods of a class that splice sequences in place, re-find containers by ID and rewrite every chain
  reference. What they do is described by one operation, cutting a node out of the tree, and one fact
  about it: the paths that stop resolving are exactly those into the node.
- **Reading the tree** (`AuthSnapshot`, `AuthReload`, `Search`). Auth inheritance is computed twice, upward for a live node and
  downward for a frozen snapshot, and survives a save and load; the sidebar search climbs only as far as the first visible node.
- **The chain runner** (`Expansion`, `ChainRunner`, `ChainTargets`). A recursive expansion over an arbitrary finder and executor
  with shared state, against an independent description: expansion trees and their post-order. Over the
  snapshot of a session, a run after a rename or a move executes the same requests in the same order.
- **Storage** (`OpenCollection`, `FileNames`, `Listing`, `Store`, `StoreLoad`, `StoreRoundTrip`, `StoreCollection`,
  `Secrets`, `SecretSplit`, `SecretFields`, `SaveLoad`, `SaveSwap`, `UnknownKeys`, `DirectoryKeys`). File shapes and their mapping, slugs and unique names, saving into
  a directory that already holds anything, loading from a directory listed in any order, secrets kept
  outside the tree under positional keys, and the stage-and-swap commit with fallible operations.
- **Streams and protocols** (`Sse`, `CookieRules`, `CookieJar`, `TokenCache`). The event-stream scanner and parser, the
  cookie jar, and the OAuth2 token cache as interleaved steps of any number of threads.
- **Codecs** (`ShellWords`, `Curl`, `CurlRoundTrip`, `CurlMethods`, `CurlForms`, `CurlFlags`, `OAuth1`). cURL export against cURL import, and the OAuth 1.0a base string.
- **The list of open collections** (`CollectionList`).

`Text` and `Model` hold what all of them share.

## Where code and promise part

For each of these the exact condition under which the promise holds is proved, and an input on which it fails.

- A rename or a move keeps a reference to the node, or into it, on target exactly when every name on its new
  path is clean and no earlier sibling answers for its name there. Any other reference stays on target exactly when
  it still reads as it did and the node does not capture it in its new place. `RenameItem` only refuses blank names,
  so each of these fails (`Edits.RenameKeepsRefsIff`, `MoveNode.MoveKeepsRefsIff`, `Edits.RenameStrandsReference`,
  `Edits.RenameTurnsReference`, `Edits.RenameCapturesReference`, `Edits.RenameMisreadsPath`).
- The chain depth cap reads 8, but even an empty sub-chain counts: a run succeeds exactly when its expansion is
  within the cap so counted, so it is at most 7 steps deep (`ChainRunner.Resolve`, `ChainRunner.SuccessMeansAcyclic`).
- A save sweeps stale folders but keeps a directory called `folder.yml` or `opencollection.yml`, and a load
  takes it for a folder (`StoreRoundTrip.SaveThenLoad`, `SaveLoad.SaveLoadRestores`, `StoreRoundTrip.TrapExample`).
- Unknown YAML keys are meant to survive a load and save. A save names every file anew, takes the keys from
  whatever file it finds under the new name, and sweeps the others. So all keys of a collection survive exactly when
  every request file has a type that loads and every item is given its keys by the file it is about to replace
  (`DirectoryKeys.CollectionKeysIff`). Where the files already have the names a save gives them, as after a save,
  that means that rows of one name agree, and that there are none on variable and assertion rows, on chain rows
  without an alias, on a "none" body and on what an auth type leaves out (`DirectoryKeys.SettledGives`,
  `DirectoryKeys.SavedSettles`). Inputs: `DirectoryKeys.RenamedLosesKeys`, `DirectoryKeys.RenamedFolderLosesKeys`,
  `DirectoryKeys.RenamedEnvLosesKeys`, `DirectoryKeys.PairTradesKeys`, `DirectoryKeys.ForeignTypeDeleted`, `UnknownKeys.NotesLost`.
- `retry:` values with a sign are accepted and ones beyond 64 bits ignored, unlike in the standard. Everything
  else about the events of a stream is standard on every stream, and the retry times exactly when the two
  readings agree wherever an event ends (`Sse.EventsButRetry`, `Sse.EventsAreStandard`, `Sse.SignedRetryShows`).
- A Max-Age beyond 292 years overflows and can end the cookie (`CookieRules.StoredIsLive`, `CookieRules.MaxAgeOverflows`).
  The editor can open a dotless domain to its sub-domains, which no response can (`CookieRules.EditorScope`,
  `CookieRules.EditorOpensDotless`). A domain cookie reaches an IP literal that ends in a dot and its domain
  (`CookieRules.DomainMatchIsRFC`, `CookieRules.MatchesIP`). The viewer cannot remove a cookie whose domain does not
  canonicalize to itself (`CookieJar.RemoveReaches`, `CookieJar.TwoDotsStay`).
- The exporter leaves the method unquoted, and a method token may hold a single quote. A method comes back with
  every request that has it exactly when it has no quote and no lower-case letter; for a single request the
  third word of the command is the method exactly when it has no quote, but a header can still be read as a
  second -X (`CurlMethods.MethodRoundTrips`, `CurlMethods.MethodWord`, `CurlMethods.QuoteInMethod`,
  `CurlMethods.MethodByAccident`).
- A text body that looks like a form and has no Content-Type is imported as one (`CurlForms.TextTakenForForm`).
- Cache keys join free text with bars. Among configurations with one of the two grants, a key belongs to one only
  exactly when no text field after the namespace has a bar and no piece of the namespace but the first is a grant.
  Clearing a namespace can reach another one exactly when it is the other's beginning up to a bar, or the other is
  its beginning and a grant follows (`TokenCache.KeyIdentifies`, `TokenCache.BarsCollide`, `TokenCache.NamespacesApart`,
  `TokenCache.ClearsAnother`).
- The OAuth 1.0a base URI uses the decoded path where section 3.4.1.2 of RFC 5849 has the path of the request
  line. They agree exactly when the typed path is not empty and nothing in it is or must be percent-encoded
  (`OAuth1.TypedURLIsRFC`, `OAuth1.EmptyPathDiffers`, `OAuth1.SpaceDiffers`).
- Opening a collection ignores the environment persisted for its directory until the next reload
  (`CollectionList.OpenInSync`, `CollectionList.OpenedWithoutEnv`). A directory that failed to load and is opened
  again is listed twice, and the next reload then opens it twice (`CollectionList.Workspace.OpenCollection`,
  `CollectionList.Workspace.Reload`, `CollectionList.OpenedTwice`).

## Model

| member | source | states |
|---|---|---|
| Tree.CutPaste | internal/session/items.go:363-405 | cutting a node that was just pasted at an address gives back the node and the tree before |
| Tree.PasteCut | internal/session/items.go:283-320 | pasting a cut node back at its address restores the tree exactly |
| Tree.ShiftTracks | internal/session/items.go:481-534 | after a cut, the container at the shifted address is the old one (less the node, if it was inside), with the same model ID |
| Census.CutTally | internal/session/items.go:283-320 | whatever is counted about the items of a tree, a cut removes exactly what the cut node holds |
| Census.PasteTally | internal/session/items.go:363-405 | and a paste adds exactly that |
| Census.FindSound | internal/session/items.go:610-635 | an address found for a model ID holds a node with that ID |
| Census.FindComplete | internal/session/items.go:610-635 | a node that is in the tree is found by its ID |
| Census.FindUnique | internal/session/items.go:610-635 | with unique IDs the search returns the node's own address |
| ChainRefs.ParseChainPath | internal/session/session.go:785-799 | the segment loop computes the clean pieces of the split reference |
| ChainRefs.SplitOfJoin | internal/session/session.go:785-799 | clean names joined with slashes parse back to themselves |
| ChainRefs.CutLookup | internal/session/session.go:804-825 | cutting a node removes exactly the paths that target it; those are answered by the node itself, all others as before |
| Cascade.RewriteRequestLoop | internal/session/items.go:245-267 | the nested loop rewrites each step of each request by the same prefix rule, and nothing else |
| Cascade.CascadeChainRefs | internal/session/items.go:233-243 | the recursion reaches every request of the tree |
| Cascade.RewriteLookup | internal/session/items.go:233-267 | lookup in the rewritten tree finds the rewritten request of the one it found before |
| Cascade.RewriteIDs | internal/session/items.go:233-267 | the cascade changes no ID |
| Cascade.RekeyFollows | internal/session/items.go:245-267 | a re-keyed path finds in the new tree what the old path found in the old one |
| Cascade.RekeyExact | internal/session/items.go:245-267 | nothing resolves afterwards but re-keyings of paths that resolved before |
| Cascade.ChainStepsKeepTargets | internal/session/items.go:90-134 | every chain step with a target, by pinned ID or by path, still has that request after the cascade |
| Cascade.LookupWith | internal/session/session.go:804-825 | a tree answers a path by one of its nodes exactly where that captures it, and otherwise as without it |
| Cascade.LookupInjective | internal/session/session.go:804-825 | with unique IDs two paths find one ID only if they are one path |
| Cascade.SameTargetIff | internal/session/items.go:90-134 | after a node is put elsewhere or renamed, exactly which path finds the request that a given path found before |
| Cascade.RenameKeepsTargetsIff | internal/session/items.go:90-134 | a reference to the renamed node stays on target if and only if the new name is clean and no earlier sibling answers for it |
| MoveNode.MoveConserves | internal/session/items.go:454-547 | every folder and request survives a move exactly once with its content |
| MoveNode.MoveLands | internal/session/items.go:454-547 | the destination still has its ID, and holds its children with the node at the clamped, shifted position |
| MoveNode.DestinationFound | internal/session/items.go:471-532 | when the destination is not inside the source it is found again by ID after the removal |
| MoveNode.MovedNodeFound | internal/session/items.go:534 | the moved node is found by ID at the landing address |
| MoveNode.BackfillIDs | internal/session/items.go:562-582 | filling in a missing ID adds that one ID and changes no other |
| MoveNode.MoveKeepsChains | internal/session/items.go:454-547 | a move between clean paths with distinct siblings keeps every chain step on its target |
| MoveNode.MoveKeepsRefsIff | internal/session/items.go:454-547 | for every reference with a target, exactly when a move keeps it |
| Edits.CopyIsFresh | internal/session/items.go:731-773 | a deep copy has only new IDs, pairwise distinct |
| Edits.CopyKeepsAll | internal/session/items.go:410-452 | but for IDs a copy is the original with " (copy)" after its name, at every depth and in order |
| Edits.StaysConsistent | internal/session/items.go:15-134 | an edit that adds only newly issued IDs keeps IDs unique across the collection and the node held for undo |
| Edits.DeleteThenUndo | internal/session/items.go:283-405 | delete followed by undo is the identity on the tree and gives the node its old address |
| Edits.RenameKeepsChains | internal/session/items.go:90-134 | with a clean new name and distinct siblings every chain step keeps its target |
| Edits.RenameKeepsRefsIff | internal/session/items.go:90-134 | for every reference with a target, exactly when a rename keeps it |
| Edits.RenameStrandsReference | internal/session/items.go:90-134 | a concrete rename to an accepted but unclean name after which the reference names nothing |
| Edits.RenameTurnsReference | internal/session/items.go:90-134 | one to the clean name of an earlier sibling, which then runs instead |
| Edits.RenameCapturesReference | internal/session/items.go:90-134 | one to the name of a later sibling, whose references then run the renamed request |
| Edits.RenameMisreadsPath | internal/session/items.go:90-134 | one of a request called "a/b", which rewrites the references to the request b of the folder a |
| Edits.ReinsertIsMove | internal/session/items.go:454-547 | re-finding the destination and the node by ID gives the tree and the address that the move specifies |
| Edits.MoveReady | internal/session/items.go:454-547 | under the session's invariant the destination always survives the removal, and the invariant holds afterwards |
| Session.Session.ContainerAt | internal/session/items.go:641-666 | the walk down a node ID finds the container at that address, or that there is none |
| Session.Session.NodeNamePath | internal/session/items.go:140-174 | the walk collects the names from the top down to the node |
| Session.Session.RenameItem | internal/session/items.go:90-134 | renames the node, rewrites the references, or refuses blank names and missing nodes; keeps the invariant |
| Session.Session.DeleteItem | internal/session/items.go:283-320 | cuts the node and holds it for undo with its parent's ID and index |
| Session.Session.RestoreLastDeleted | internal/session/items.go:363-405 | pastes the held node into the folder with the captured ID at the clamped index, once |
| Session.Session.DeleteAndUndo | internal/session/items.go:283-405 | the tree and the node ID are back |
| Session.Session.DuplicateItem | internal/session/items.go:410-452 | inserts a fresh copy right after the original |
| Session.Session.MoveNode | internal/session/items.go:454-547 | admits exactly the moves the code admits, and leaves the specified tree, landing address and invariant |
| Session.Session.AddRequest | internal/session/items.go:15-43 | appends a new request under a freshly issued ID |
| Session.Session.AddFolder | internal/session/items.go:67-88 | appends a new folder under a freshly issued ID |
| AuthSnapshot.AncestorAuths | internal/session/tree.go:181-196 | the upward walk lists the containers of a node innermost first |
| AuthSnapshot.EffectiveAuth | internal/session/session.go:332-340 | the upward loops compute the effective auth of the request, of which EffectiveIs says what it is |
| AuthSnapshot.NearestDecides | internal/auth/auth.go:42-52 | the innermost auth whose type is neither empty nor "inherit" decides, and "none" when there is none |
| AuthSnapshot.EffectiveIs | internal/auth/auth.go:42-52 | a request's own auth if its type is neither empty nor "inherit", else that of the nearest folder or collection above it whose type is neither, else "none" |
| AuthSnapshot.AddedInherits | internal/session/items.go:15-88 | a request just added, directly or in a folder just added, gets what the containers above configure |
| AuthReload.ReloadKeepsAuth | internal/storage/opencollection.go:419-530 | after a save and a load every request has the effective auth it had, less blocks of other types, though an empty type comes back as "inherit" |
| AuthSnapshot.CloneFoldersWithAuth | internal/session/session.go:1046-1064 | the downward clone carries the auths met so far, outermost first |
| AuthSnapshot.FrozenIsEffective | internal/session/session.go:1046-1087 | at every depth the auth frozen into the snapshot is the live effective auth of that node |
| AuthSnapshot.SnapshotFindsByPath | internal/session/session.go:1019-1028 | the snapshot resolves a path to the request the live lookup finds, with its effective auth |
| AuthSnapshot.IndexRequestsByID | internal/session/session.go:993-1002 | the index is built request by request, later entries overwriting |
| AuthSnapshot.SnapshotFindsByID | internal/session/session.go:1033-1039 | with unique IDs the snapshot answers each request's own ID and no other |
| Search.Filter.MarkMatch | internal/session/tree.go:69-79 | stopping at the first visible ancestor leaves the visible set closed upward |
| Search.Filter.MarkSubtree | internal/session/tree.go:82-90 | everything below a node becomes visible |
| Search.SearchTree | internal/session/tree.go:48-66 | the visible nodes are exactly those that match, have a matching ancestor or a matching descendant |
| Search.MatchesIs | internal/session/tree.go:48-115 | a node matches if and only if the query stands, in any case, in its name, or in its method, two spaces and its name |
| Expansion.ExpansionUnique | internal/chain/chain.go:210-279 | a chain has at most one expansion |
| Expansion.IdentifierIs | internal/chain/chain.go:46-48 | which aliases are identifiers, by code points |
| Expansion.CallsArePostOrder | internal/chain/chain.go:210-279 | executions happen in the post-order of the expansion |
| Expansion.ViewsAreOwnAliases | internal/chain/chain.go:210-279 | a request is given exactly the aliases of its own steps |
| Expansion.ViewsAreOwnViews | internal/chain/chain.go:210-279 | each alias is bound to the view its execution returned |
| Expansion.OwnCallInRun | internal/chain/chain.go:210-279 | that execution is the one right after the calls of the step's own chain |
| Expansion.WalksNeverReturn | internal/chain/chain.go:210-279 | below a chain that runs no walk repeats a visit key or exceeds the depth |
| ChainRunner.AppendBounded | internal/chain/chain.go:356-366 | the console holds the first 1024 lines and one marker if there were more |
| ChainRunner.LinesAre | internal/chain/chain.go:262-271 | what one execution adds to the console: its script lines, then its alias, method and URL if it went out |
| ChainRunner.CountSteps | internal/chain/chain.go:324-350 | the upfront count equals the size of the expansion whenever there is one within the caps |
| ChainRunner.Runner.ResolveSteps | internal/chain/chain.go:210-279 | succeeds exactly when the steps have an expansion that runs, makes its executions, and restores the visiting set |
| ChainRunner.Resolve | internal/chain/chain.go:184-201 | terminates for every finder; every execution is of the request its step pins, else of the one its path names; success, calls, views, console and progress are those of the expansion |
| ChainRunner.SuccessMeansAcyclic | internal/chain/chain.go:184-279 | after a success every walk along chain steps is at most seven long and repeats no request ID, nor that of the leaf |
| ChainRunner.VisitKeysApart | internal/chain/chain.go:289-294 | two executions count as a repeat if and only if they are of one ID, or without IDs by one path |
| ChainTargets.StepRuns | internal/chain/chain.go:303-313 | over the snapshot a step runs the request it pins in the live tree, else the one its path finds, with its effective auth |
| ChainTargets.PinnedKeepsContent | internal/session/items.go:90-134 | a pinned request is found after a rename or a move with its content, references rewritten |
| ChainTargets.EditFollows | internal/session/items.go:90-134 | after a rename or a move the rewritten step executes the request that the step executed before |
| ChainTargets.ExpansionFollows | internal/chain/chain.go:210-279 | if every step does, whole chains expand alike |
| ChainTargets.RenameKeepsRuns | internal/session/items.go:90-134 | after a rename every chain executes the same requests in the same order |
| ChainTargets.MoveKeepsRuns | internal/session/items.go:454-547 | and after a move |
| OpenCollection.RequestToFile | internal/storage/opencollection.go:219-255 | builds the file shape row by row, query rows before path rows |
| OpenCollection.FileToRequest | internal/storage/opencollection.go:334-381 | reads it back, sorting parameter rows by their type |
| OpenCollection.MergeExtras | internal/storage/store.go:311-352 | each new row gets the unknown keys of the last earlier row of its name that has any |
| OpenCollection.AuthRoundTrip | internal/storage/opencollection.go:419-557 | a stored auth reads back with only the block of its type, an inheriting one as the place's default |
| OpenCollection.RequestRoundTrip | internal/storage/opencollection.go:219-381 | a request reads back up to the stated normalization, whatever file it replaced |
| OpenCollection.SavedRequestStable | internal/storage/store.go:184-235 | saving a request over its own file changes nothing |
| UnknownKeys.MergedKeys | internal/storage/store.go:305-352 | rebuilt rows get their own unknown keys back if and only if the earlier rows have them last under their names |
| UnknownKeys.OwnRows | internal/storage/store.go:305-352 | rows give themselves theirs if and only if those of one name agree |
| UnknownKeys.OwnChain | internal/storage/store.go:216-231 | chain rows do if and only if those of one alias agree and those without one have none |
| UnknownKeys.MergedAuthKeys | internal/storage/store.go:272-303 | what a saved auth gets from the block it replaces: its keys, and those of the scheme its type selects |
| UnknownKeys.OwnAuth | internal/storage/store.go:272-303 | an auth block gives itself its keys if and only if its type leaves none of them out |
| UnknownKeys.KeysSurviveIff | internal/storage/store.go:180-236 | a request saved over any file, or none, keeps the unknown keys of the file it was read from if and only if the replaced one gives them |
| UnknownKeys.OwnFileGives | internal/storage/store.go:180-236 | a file gives itself its keys if and only if the stated condition on it holds |
| UnknownKeys.NotesLost | internal/storage/opencollection.go:9-16 | a concrete file whose variable and alias-less chain step lose theirs whatever is replaced |
| UnknownKeys.FolderKeysSurviveIff | internal/storage/store.go:244-253 | the same for a folder file over any other |
| UnknownKeys.RootKeysSurviveIff | internal/storage/store.go:121-135 | the file of the collection, which replaces itself, keeps its keys if and only if none are on a variable or on what its auth type leaves out |
| UnknownKeys.EnvKeysSurviveIff | internal/storage/store.go:146-155 | an environment file over any other |
| DirectoryKeys.TreeKeysIff | internal/storage/store.go:168-262 | items loaded from one directory and saved over another keep every unknown key, on every level, if and only if the other gives them under the assigned names |
| DirectoryKeys.CollectionKeysIff | internal/storage/opencollection.go:9-16 | a load and a save of a whole collection keeps every unknown key if and only if the root file is safe and every other file is given its keys by the one it is about to replace |
| DirectoryKeys.LoadedAlike | internal/storage/store.go:31-45 | filling the secrets in and blanking them again changes nothing that this depends on |
| DirectoryKeys.SettledGives | internal/storage/store.go:168-262 | where every item was read from the entry it is saved in, that holds if and only if every file is safe |
| DirectoryKeys.SavedSettles | internal/storage/store.go:168-262 | a directory that was saved is of that kind for every later load |
| DirectoryKeys.RenamedLosesKeys | internal/storage/store.go:180-187 | a file "Get Users.yml" is replaced by one without its unknown keys, and deleted |
| DirectoryKeys.RenamedFolderLosesKeys | internal/storage/store.go:237-253 | so is a folder "My Folder" |
| DirectoryKeys.RenamedEnvLosesKeys | internal/storage/store.go:143-155 | and an environment "Prod.yml" |
| DirectoryKeys.PairTradesKeys | internal/storage/store.go:180-187 | two requests of one name numbered against their files trade their keys |
| DirectoryKeys.ForeignTypeDeleted | internal/storage/store.go:357-387 | a request file of another type is deleted by the next save |
| FileNames.SlugIsSlug | internal/storage/store.go:626-637 | a slug of any name is non-empty, of usable characters, with no outer dash |
| FileNames.SlugFixed | internal/storage/store.go:630-637 | slugging a slug changes nothing |
| FileNames.SlugIsWords | internal/storage/store.go:626-637 | a slug is the words of the name in lower case, its maximal runs of letters and digits, joined by single dashes, and the fallback if and only if there are none |
| FileNames.GetUsers | internal/storage/store.go:630-637 | "Get Users" gives "get-users" |
| FileNames.Pigeonhole | internal/storage/store.go:642-649 | taken candidates cannot outnumber the taken names, so the suffix loop ends |
| FileNames.UniqueName | internal/storage/store.go:642-649 | returns the first free candidate and records it |
| FileNames.FreshNameIsLeast | internal/storage/store.go:642-649 | that candidate has the least free suffix |
| Listing.SortStable | internal/storage/store.go:584-585 | sorted, a permutation, and members of one number keep their order |
| Listing.SortingRestores | internal/storage/store.go:584-595 | sorting any listing by numbers 1..n gives back the numbered order |
| Store.NamesForFresh | internal/storage/store.go:168-181 | assigned names are slugs, distinct, and none was taken before |
| Store.KeysAreApart | internal/storage/store.go:168-181 | no two items of a container share an entry and none takes a reserved one |
| Store.SweepDir | internal/storage/store.go:357-387 | removes exactly the YAML files and folder-like directories that are not kept |
| Store.StrangersSurvive | internal/storage/store.go:357-387 | which entries that are no items a save leaves untouched, by suffix and by "folder.yml", and that all others go |
| Store.SaveRequests | internal/storage/store.go:180-236 | writes every request over what its name held, and fails exactly on a directory there |
| Store.SaveItems | internal/storage/store.go:168-262 | fails exactly on a clash of kinds, else leaves each item in its own entry and only what a sweep spares besides |
| StoreLoad.LoadItems | internal/storage/store.go:513-596 | fails exactly when something it opens is unreadable, else returns everything found, ordered by number |
| StoreLoad.LoadFolder | internal/storage/store.go:532-565 | one subdirectory: skipped, failed or read with its items |
| StoreRoundTrip.SavedRequestReads | internal/storage/store.go:180-236 | what a saved request's file reads back as |
| StoreRoundTrip.RequestPathsAre | internal/storage/store.go:354-387 | after a save the only request files are the saved ones |
| StoreRoundTrip.FolderPathsAre | internal/storage/store.go:354-387 | after a save the only folders are the saved ones and the reserved-name directories |
| StoreRoundTrip.RequestOrder | internal/storage/store.go:513-596 | every load of a saved directory finds the requests in saved order |
| StoreRoundTrip.FolderOrder | internal/storage/store.go:513-596 | likewise the folders |
| StoreRoundTrip.SavedIsReadable | internal/storage/store.go:513-596 | a saved directory without a reserved-name trap always loads |
| StoreRoundTrip.SaveThenLoad | internal/storage/store.go:168-262 | save then load restores the tree if and only if no reserved-name directory passes for a folder |
| StoreRoundTrip.TrapExample | internal/storage/store.go:168-178 | a concrete directory on which it does not |
| StoreRoundTrip.SaveTwice | internal/storage/store.go:168-262 | a second save finds no clash and changes nothing, unknown keys included |
| StoreRoundTrip.SaveIsDetermined | internal/storage/store.go:168-262 | what a save leaves is determined by what was there |
| StoreCollection.SaveEnvironments | internal/storage/store.go:136-159 | each environment in its own file, other YAML files swept, failing exactly on a directory in the way |
| StoreCollection.LoadEnvironments | internal/storage/store.go:475-508 | reads every YAML file, ordered by number, or fails on one that does not parse |
| StoreCollection.EnvsSaveThenLoad | internal/storage/store.go:136-159 | environments come back in order with names and variables, whatever the directory held |
| Secrets.KeysDistinct | internal/storage/secrets.go:133-218 | no two secret fields of a collection have the same key, at any depth |
| SecretSplit.Walk.EachSecret | internal/storage/secrets.go:138-160 | the walk rewrites each secret field under its positional key and gathers the taken values in order |
| SecretSplit.FieldsMapped | internal/storage/secrets.go:133-218 | a walk changes the values of the secret fields and neither their places nor their order |
| SecretSplit.SplitSecrets | internal/storage/secrets.go:105-115 | returns the blanked collection and the store of the non-empty values |
| SecretSplit.ApplySecrets | internal/storage/secrets.go:120-131 | fills exactly the empty fields the store knows |
| SecretSplit.ApplyUndoesSplit | internal/storage/secrets.go:102-131 | applying the extracted secrets to the split collection restores it exactly |
| SecretSplit.SplitHoldsNoSecret | internal/storage/secrets.go:102-115 | every secret field of the split collection is empty |
| SecretFields.SavedIsCleared | internal/storage/secrets.go:138-229 | the collection that is written is the open one less exactly its passwords, tokens, keys and secret variables, field by field |
| SecretSplit.NothingToFill | internal/storage/secrets.go:117-131 | a collection that still carries its secrets in clear is left unchanged |
| SaveLoad.SaveInPlace | internal/storage/store.go:114-162 | writes root file, environments and items, or fails on a clash of kinds |
| SaveLoad.Load | internal/storage/store.go:432-471 | reads them back and fills the secrets in, or fails exactly when something is unreadable |
| SaveLoad.SavedThenLoaded | internal/storage/store.go:114-162 | a saved collection loads and comes back up to the stated normalization if and only if no reserved-name directory passes for a folder |
| SaveLoad.SaveLoadRestores | internal/storage/store.go:31-45 | save then load returns the whole collection, secrets included, under exactly that condition |
| SaveSwap.Disk.Swap | internal/storage/store.go:67-85 | the swap ends with the new tree in place or, on an error, the original back unless the rollback failed |
| SaveSwap.Disk.Save | internal/storage/store.go:31-86 | at every step the original or the complete new tree is in place or the original aside; an error if and only if an operation reported one; new tree if no error |
| Sse.ScanLines | internal/sse/sse.go:107-132 | the split function's answer on a buffer |
| Sse.CutIsStable | internal/sse/sse.go:107-132 | a line cut off a prefix stays the same however the stream goes on |
| Sse.LinesAreSplit | internal/sse/sse.go:105-132 | the lines are those of normalizing line breaks and splitting at LF |
| Sse.Scanner.Scan | internal/sse/sse.go:36-42 | the next line does not depend on how the stream is cut into chunks |
| Sse.RetryAgrees | internal/sse/sse.go:82-85 | a retry value is read as the standard reads it if and only if it is unsigned or no number, and in range |
| Sse.Parser.Next | internal/sse/sse.go:47-92 | one call reads up to the next event the interpretation dispatches, with ID and retry time persisting |
| Sse.Drain | internal/sse/sse.go:44-92 | repeated calls yield the events of the stream, for every chunking; EventsButRetry says which these are |
| Sse.LineIsStandard | internal/sse/sse.go:67-86 | a line has the effect that section 9.2.6 gives it, on every state of the buffers, if and only if it is not an odd retry line |
| Sse.FieldIsStandard | internal/sse/sse.go:97-103 | every line is split into the field and the value of section 9.2.6 |
| Sse.FieldsRead | internal/sse/sse.go:94-103 | a field reads as it was written, with or without one space after the colon, or without a colon |
| Sse.ProcessIsStandard | internal/sse/sse.go:54-86 | but for retry values a line has the effect of section 9.2.6, dispatch included |
| Sse.OneMessage | internal/sse/sse.go:47-92 | "data: x" and a blank line are one message with data x, for every x without line breaks |
| Sse.UnterminatedIsSilent | internal/sse/sse.go:128-131 | a last line without a line break dispatches nothing |
| Sse.EventsButRetry | internal/sse/sse.go:1-4 | on every stream the events are, but for retry times, those of sections 9.2.5 and 9.2.6 of the WHATWG HTML Standard |
| Sse.EventsAreStandard | internal/sse/sse.go:1-4 | retry times included if and only if the last retry line read by either rule has the same value wherever an event ends |
| Sse.PlainRetriesAgree | internal/sse/sse.go:82-85 | which is so without odd retry lines |
| Sse.SignedRetry | internal/sse/sse.go:82-85 | a concrete odd value |
| Sse.SignedRetryShows | internal/sse/sse.go:82-85 | and a stream whose event shows it |
| CookieRules.SetterMatches | internal/cookiejar/cookiejar.go:323-381 | a host that may set a cookie domain-matches it |
| CookieRules.WireScopes | internal/cookiejar/cookiejar.go:323-357 | a response can only scope a cookie to its host, or to a dotted parent when it is no IP literal |
| CookieRules.DomainMatchIsRFC | internal/cookiejar/cookiejar.go:373-381 | the code's match is that of RFC 6265 section 5.1.3 except on IP literals ending in a dot and the domain |
| CookieRules.MatchesIP | internal/cookiejar/cookiejar.go:373-381 | a domain the editor stores and an IP literal it matches |
| CookieRules.DomainAttrIsRFC | internal/cookiejar/cookiejar.go:323-357 | a Domain attribute is accepted as in section 5.3 of RFC 6265, dotless domains in place of public suffixes |
| CookieRules.DomainsAreCanonical | internal/cookiejar/cookiejar.go:408-412 | case, a leading dot of a Domain and a trailing dot make no difference |
| CookieRules.PathMatchIsRFC | internal/cookiejar/cookiejar.go:385-393 | the path-match of section 5.1.4 of RFC 6265 |
| CookieRules.PathMatchBySegments | internal/cookiejar/cookiejar.go:385-393 | a cookie path matches the request paths whose segments continue its own, so "/foo" not "/foobar" |
| CookieRules.CookiePathIs | internal/cookiejar/cookiejar.go:397-406 | the Path attribute if it starts with a slash, else the directory of the request path |
| CookieRules.DefaultPathMatches | internal/cookiejar/cookiejar.go:385-406 | a default path matches the request that set it if and only if the request path is empty or starts with a slash |
| CookieRules.StoredIsLive | internal/cookiejar/cookiejar.go:303-317 | a stored cookie is live at once if and only if its Max-Age does not overflow |
| CookieRules.LifetimeIs | internal/cookiejar/cookiejar.go:303-317 | for how long a cookie lives: Max-Age before Expires, neither without end, and what deletes |
| CookieRules.MaxAgeOverflows | internal/cookiejar/cookiejar.go:303-317 | the least Max-Age that does |
| CookieRules.EditorScope | internal/cookiejar/cookiejar.go:234-249 | the editor's scope is one a response could give if and only if it is host-only, an IP or dotted |
| CookieRules.EditorOpensDotless | internal/cookiejar/cookiejar.go:234-249 | a scope it gives that no response could |
| CookieRules.NormalizedKeeps | internal/cookiejar/cookiejar.go:234-249 | what the editor refuses, and that it stores value and flags as entered |
| CookieRules.KeyInjective | internal/cookiejar/cookiejar.go:77-82 | keys of NUL-free cookies identify domain, path and name |
| CookieJar.StoredConsistent | internal/cookiejar/cookiejar.go:271-281 | storing keeps every entry at its own key with its own number |
| CookieJar.StoredLast | internal/cookiejar/cookiejar.go:271-281 | a new slot comes after all others, a rewritten one keeps its number and creation time |
| CookieJar.Jar.SetCookies | internal/cookiejar/cookiejar.go:87-122 | each header in turn is ignored, deletes its slot or writes it |
| CookieJar.Jar.LiveEntries | internal/cookiejar/cookiejar.go:285-298 | purges what has expired and returns exactly the live entries asked for |
| CookieJar.Jar.Cookies | internal/cookiejar/cookiejar.go:127-159 | answers exactly the live matching entries, longest path first, then oldest; OfferedIs says which match |
| CookieJar.OneOrder | internal/cookiejar/cookiejar.go:148-153 | there is one such order, whatever order the map is walked in |
| CookieJar.OfferedIs | internal/cookiejar/cookiejar.go:127-159 | an entry is offered if and only if it has not expired, the host is its domain or below it unless host-only, the path path-matches as in RFC 6265, and a secure one meets https |
| CookieJar.Jar.Replace | internal/cookiejar/cookiejar.go:209-227 | the table after an edit |
| CookieJar.Jar.Remove | internal/cookiejar/cookiejar.go:253-260 | exactly the named slot goes |
| CookieJar.OfferedBack | internal/cookiejar/cookiejar.go:87-159 | a just stored cookie is offered to its URL if and only if scheme and path allow and its lifetime did not overflow |
| CookieJar.EditKeepsPlace | internal/cookiejar/cookiejar.go:203-227 | a same-identity edit keeps keys, numbers and every other entry |
| CookieJar.EditKeepsOrder | internal/cookiejar/cookiejar.go:203-227 | and the order among all entries |
| CookieJar.EditMovesSlot | internal/cookiejar/cookiejar.go:203-227 | an edit of the identity leaves nothing under the old one |
| CookieJar.RemoveReaches | internal/cookiejar/cookiejar.go:253-260 | the viewer's remove reaches what it shows if and only if the domain canonicalizes to itself |
| CookieJar.TwoDotsStay | internal/cookiejar/cookiejar.go:209-260 | an entry the editor stores and the remove misses |
| ShellWords.NeedsShellQuote | internal/exporter/exporter.go:148-164 | exactly the strings that are empty or hold an unsafe character |
| ShellWords.TokenizeShell | internal/importer/curl.go:313-399 | the loop computes the tokens of the three-mode reader |
| ShellWords.QuotedReads | internal/exporter/exporter.go:144-146 | the tokenizer undoes quoting on every string |
| ShellWords.CommandReads | internal/exporter/exporter.go:73 | a command of quoted and bare words over several lines reads back as those words |
| ShellWords.DoubleQuotedReads | internal/importer/curl.go:313-399 | any string in double quotes, with quotes, backslashes, dollars and backquotes escaped, reads back |
| ShellWords.DoubleBackslash | internal/importer/curl.go:313-399 | there a backslash before another character stays, before a line feed goes |
| Curl.RenderCurl | internal/exporter/exporter.go:43-74 | writes the words of the request line by line |
| Curl.FromCurl | internal/importer/curl.go:19-172 | the loops compute the import of the tokens |
| Curl.ParseFormData | internal/importer/curl.go:264-283 | the form rows of the data |
| CurlFlags.FourSpellings | internal/importer/curl.go:45-213 | a flag means the same short or long, with its value attached or in the next word |
| CurlFlags.UserMeans | internal/importer/curl.go:104-108 | -u gives Basic auth, the password after the first colon |
| CurlFlags.NamedHeadersMean | internal/importer/curl.go:90-103 | -A, -e and -b give their headers verbatim |
| CurlFlags.DataMeans | internal/importer/curl.go:113-120 | -d adds data as it stands |
| CurlFlags.UrlencodeMeans | internal/importer/curl.go:113-120 | --data-urlencode escapes all but a name |
| CurlFlags.FormMeans | internal/importer/curl.go:121-127 | -F adds a form row |
| CurlFlags.GetMeans | internal/importer/curl.go:128-129 | -G takes no value |
| CurlFlags.HeaderMeans | internal/importer/curl.go:78-89 | -H adds the trimmed name and value, notes a Content-Type in any case, and is ignored without a name or a colon |
| CurlFlags.BodyIs | internal/importer/curl.go:234-261 | the type of the body by what the Content-Type mentions, else by its first character, else as a form, else text |
| CurlFlags.HeadersKept | internal/importer/curl.go:186-195 | beside form parts exactly a multipart/form-data Content-Type is dropped |
| CurlFlags.DefaultMethods | internal/importer/curl.go:139-171 | the method, URL, headers and body of whole commands without -X |
| CurlRoundTrip.ImportOfExport | internal/exporter/exporter.go:43-74 | importing an exported command recovers method, URL and ordered headers, and hands the exact bytes to the body |
| CurlRoundTrip.BodyIsExact | internal/importer/curl.go:234-255 | the imported content is the exact bytes exported if and only if they are not taken for form data |
| CurlForms.FormReads | internal/importer/curl.go:264-283 | the data of an encoded form reads back as its rows, in order, those without a key left out |
| CurlForms.FormRoundTrip | internal/importer/curl.go:234-283 | an exported form, known by its Content-Type, is imported as that form |
| CurlForms.AmpersandsCollapse | internal/importer/curl.go:264-283 | rows do not tell one ampersand from two |
| CurlForms.TextTakenForForm | internal/importer/curl.go:245-261 | two texts without a Content-Type that come back alike |
| CurlMethods.MethodWord | internal/exporter/exporter.go:44 | for every request the third word of the command is the method if and only if the method has no single quote |
| CurlMethods.EvenQuotes | internal/exporter/exporter.go:44 | with an even number of quotes exactly the quotes and the case of the method are lost |
| CurlMethods.OddQuotes | internal/importer/curl.go:313-399 | with an odd number and a plain URL alone the command is refused |
| CurlMethods.MethodRoundTrips | internal/exporter/exporter.go:43-74 | every request with a method comes back if and only if the method has no quote and no lower-case letter |
| CurlMethods.QuoteInMethod | internal/exporter/exporter.go:44 | a concrete request whose exported command is refused |
| CurlMethods.QuotesInMethod | internal/exporter/exporter.go:44 | and one that is imported with another method |
| CurlMethods.MethodByAccident | internal/exporter/exporter.go:44 | and one that is imported with its method and URL although the quote has cost it its header |
| TokenCache.LockedKept | internal/auth/oauth2.go:64-80 | every step keeps one mutex per key, held by exactly the thread inside |
| TokenCache.OneFetcher | internal/auth/oauth2.go:214-238 | in every interleaving at most one thread per key is inside |
| TokenCache.OneMutex | internal/auth/oauth2.go:64-80 | a key's mutex never changes |
| TokenCache.ReturnedIsFreshOrFetched | internal/auth/oauth2_authcode.go:56-79 | a returned token was obtained for the caller's key, and was fresh in the cache or fetched by the call |
| TokenCache.CacheAnswers | internal/auth/oauth2_authcode.go:56-59 | the cache answers if and only if the entry lives for more than 30 seconds |
| TokenCache.RefreshTokenKept | internal/auth/oauth2_authcode.go:66-76 | after a refresh the cache holds the new access token and the new refresh token, or the traded one if there is none |
| TokenCache.BrowserLast | internal/auth/oauth2_authcode.go:60-80 | the interactive flow starts only without a fresh entry and without a refresh that works |
| TokenCache.BalancedKept | internal/auth/oauth2.go:214-238 | every started attempt is under way, fresh in the cache, or lost |
| TokenCache.FetchesAreBounded | internal/auth/oauth2_authcode.go:56-79 | attempts for a key are at most one more than its failures, expiries and clears |
| TokenCache.KeyIdentifies | internal/auth/oauth2.go:143-212 | among configurations with one of the two grants a key is that of one only if and only if no field after the namespace has a bar and no later piece of the namespace is a grant |
| TokenCache.CompleteKeyIdentifies | internal/auth/oauth2.go:203-221 | the same among those with the fields the cache is asked for, where none of these starts with a bar |
| TokenCache.UnmistakableKey | internal/auth/oauth2.go:143-159 | such a configuration shares its key with no other at all |
| TokenCache.BarCollides | internal/auth/oauth2.go:147-159 | a bar in any field after the namespace gives another configuration with the same key |
| TokenCache.GrantCollides | internal/auth/oauth2.go:147-159 | so does a grant inside the namespace |
| TokenCache.BarsCollide | internal/auth/oauth2.go:147-159 | a concrete pair |
| TokenCache.NamespacesApart | internal/auth/oauth2.go:125-141 | clearing one namespace can reach a key of another if and only if it is the other's beginning up to a bar, or the other is its beginning and a grant follows |
| TokenCache.NamespaceCleared | internal/auth/oauth2.go:125-141 | among namespaces without a bar it reaches exactly its own keys, whatever the other fields hold |
| TokenCache.ClearsAnother | internal/auth/oauth2.go:125-141 | a concrete namespace whose keys go with those of another |
| OAuth1.OAuthEncode | internal/auth/oauth1.go:132-145 | the loop computes the percent-encoding |
| OAuth1.DecodeEncode | internal/auth/oauth1.go:130-145 | percent-decoding undoes it on every byte string |
| OAuth1.EncodeIsPlain | internal/auth/oauth1.go:130-145 | an encoding holds no separator of the base string |
| OAuth1.EncodingIs | internal/auth/oauth1.go:130-145 | exactly the unreserved characters of section 2.3 of RFC 3986 stay, the others become two upper-case hex digits |
| OAuth1.AtMostIs | internal/auth/oauth1.go:69-74 | parameters are compared at the first byte that differs |
| OAuth1.OneListing | internal/auth/oauth1.go:69-74 | a multiset of pairs has one sorted listing |
| OAuth1.BaseString | internal/auth/oauth1.go:64-79 | builds a base string of the request from some sorted listing of its encoded parameters |
| OAuth1.BaseIs | internal/auth/oauth1.go:64-79 | the pieces of a base string: upper-case method, encoded URL, encoded "name=value" list with ampersands |
| OAuth1.BaseIsPermutationInvariant | internal/auth/oauth1.go:64-79 | it does not depend on the order the parameters were collected in |
| OAuth1.BaseDetermines | internal/auth/oauth1.go:64-79 | it determines the upper-cased method, the URL and the multiset of parameters |
| OAuth1.AuthorityIs | internal/auth/oauth1.go:86-98 | the host in lower case with its port, less 80 for http and 443 for https |
| OAuth1.BaseURLIsRFC | internal/auth/oauth1.go:86-98 | the base URL is that of section 3.4.1.2 of RFC 5849 if and only if the path is not empty and is sent without percent signs |
| OAuth1.TypedURLIsRFC | internal/auth/oauth1.go:86-98 | for a URL as typed: if and only if its path is not empty, has no percent sign and nothing that must be encoded |
| OAuth1.EmptyPathDiffers | internal/auth/oauth1.go:86-98 | a URL without a path is sent as a slash and signed as nothing |
| OAuth1.SpaceDiffers | internal/auth/oauth1.go:86-98 | a space, typed or encoded, is signed decoded |
| CollectionList.LayoutsAgree | internal/session/session.go:1148-1157 | the selection by index and by directory carry the same information |
| CollectionList.ShiftIsRekey | internal/session/session.go:290-298 | shifting indices down equals re-keying through the directories |
| CollectionList.Workspace.Reload | internal/session/session.go:130-183 | opens what loads, in listed order, with the persisted selection; directories stay distinct if and only if none that loads is listed twice |
| CollectionList.Workspace.OpenCollection | internal/session/session.go:221-241 | lists stay aligned, the opened directory is active, no selection changes; the persisted list stays free of repeats if and only if the directory was open or not listed |
| CollectionList.Workspace.RemoveCollection | internal/session/session.go:248-312 | the entry goes from every list, selections and the active collection follow their directories |
| CollectionList.Workspace.MoveCollection | internal/session/session.go:1126-1189 | the lists are reordered in lockstep, selections and the active collection follow their directories |
| CollectionList.Workspace.SetActiveEnv | internal/session/session.go:396-416 | selects for the active collection only and persists, or forgets, the name under its directory and no other |
| CollectionList.RemoveInSync | internal/session/session.go:248-312 | removing keeps the selection what a reload would make it |
| CollectionList.MoveInSync | internal/session/session.go:1180-1188 | so does reordering |
| CollectionList.OpenInSync | internal/session/session.go:221-241 | opening does so if and only if nothing is persisted for the directory |
| CollectionList.OpenedWithoutEnv | internal/session/session.go:221-241 | a run of open, select, reload, open, reload in which the reopened directory has no environment and the last reload finds one |
| CollectionList.OpenedTwice | internal/session/session.go:221-241 | a run of open, reload, open, reload after which one directory is open twice |

## Left out

- Session.Session.RestoreLastDeleted: undo is claimed across edits inside collections; removing or reordering collections does not update the collection index the held node carries.
- Session.Session.DuplicateItem: a copy is a value here, so the slices and auth blocks the code leaves shared between a copy and its original are not captured.
- Session.Session.RenameItem: the save after each edit is taken to succeed; the reload after a failed one is not modelled.
- Session.Session.MoveNode: node IDs are addresses of naturals; their text form and malformed IDs are not modelled.
- StoreLoad.LoadItems: the order among files with the same number follows the directory listing, which is left arbitrary.
- SaveSwap.Disk.Save: what a staging directory with leftovers holds after copying over it is left open, and a later save removes a tree that a failed rollback left aside.
- SaveLoad.Load: the secret store is a parameter; writing it before the tree commits, and where it lives, are not modelled.
- DirectoryKeys.CollectionKeysIff: says what a load and a save keep with no edit in between but filled-in and blanked secrets.
- TokenCache.CompleteKeyIdentifies: a required field that starts with a bar is left open; `KeyIdentifies` is not so limited.
- Sse.Parser.Next: the 1 MiB cap on a line and the byte-order mark of the standard are not modelled.
- CookieJar.Jar.Cookies: the sorted listing for the viewer and the mutex are not modelled; each call is one step.
- FileNames.SlugIsWords: lower-casing is that of ASCII text.
- TokenCache.FetchesAreBounded: the callers are steps of a state machine, a nil cache and the requests to the token endpoint are not modelled.
- OAuth1.BaseString: HMAC, Base64 and the Authorization header are not modelled.
- OAuth1.TypedURLIsRFC: the path encoding is that of Go's `net/url`, which is not part of the repository.
- Curl.FromCurl: the name derived from the URL is not modelled, and percent-escaping of form data is a parameter, assumed to undo itself and to hide separators.
- Store.SaveItems: YAML is exact on the file shapes, a file is what each unmarshal call makes of it, and a directory is a value passed along instead of a disk written in place.
- NTLM messages, AWS and digest signing, path-parameter and query editing, script bindings and the environment text form.
- Views, dialogs, HTTP transport, code generators and the other importers.
