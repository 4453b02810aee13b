# Notion clone: document store, sidebar tree and page shell

This project models the client-side core of a small Notion-like note-taking
application, written in TypeScript with React. The core has three parts.

- **The mock document store** (`hooks/use-mock-store.ts`). It keeps a
  module-level list of documents that starts with one welcome page, and
  mirrors that list into component state. `createDoc` appends a page with
  default fields. `updateDoc` merges a partial update into every document
  with a given id and stamps the update time.
- **The sidebar** (`components/sidebar/sidebar.tsx`). It filters the flat
  list into root documents and child documents, keeps a map of which rows
  are expanded, and renders the tree recursively. Each row has an
  indentation of `level * 12 + 12` pixels, a chevron or a spacer, and an
  icon.
- **The page shell** (`app/page.tsx`). It holds the active document id and
  the local title. Two effects pick the first document when none is active
  and keep the title in step with the current document. Handlers add a
  page, rename the current page, select a page and write the editor's
  content back to the store.

The Dafny modules follow these files:

- `Schema`: the `Workspace` and `Document` records, a nullable `Option`,
  and JavaScript truthiness of a nullable string.
- `Seqs`: `Array.prototype.filter` on sequences, with its order and
  multiplicity lemmas.
- `MockStore`: partial updates (`Patch`), the spread-merge, the map-update
  of the list, the new-document defaults, and the `Store` class whose
  methods reassign the list.
- `Sidebar`: the root and child filters, the expand map with its
  `ExpandState` class, and the recursive renderer flattened into a sequence
  of rows.
- `Page`: the shell state, its effects and handlers as pure transitions,
  and the `Shell` class whose methods are proved to perform those
  transitions.

React's scheduling is made explicit. The effects are steps of their own
(`SelectInitial`, `SyncTitle`), and `Settle` runs both after a handler, as
React does before the next user event can arrive. Random ids and clock
readings are parameters (`freshId`, `now`). The route's document id is a
parameter of the sidebar (`route`).

The renderer recurses on `fuel`, starting at the number of documents.
`FuelSuffices` proves that, when ids are unique and non-empty, more fuel
renders exactly the same rows, so the bound never cuts the tree short.

## Model

| member | source | states |
|---|---|---|
| Schema.SameIdSameDocument | lib/schema.ts:14-27 | When ids are unique, two listed documents have equal ids exactly when they are the same document. |
| Seqs.Filter | components/sidebar/sidebar.tsx:46 | The filter is no longer than its input, and it holds exactly the elements of the input that the predicate accepts. |
| Seqs.FilterAppend | components/sidebar/sidebar.tsx:46 | Filtering a concatenation is the concatenation of the filters, so the original order is kept. |
| Seqs.FilterCount | components/sidebar/sidebar.tsx:125 | An accepted element occurs in the filter as often as in the input; a rejected one does not occur. |
| MockStore.Merge | hooks/use-mock-store.ts:62 | For each of the eleven fields, the update's value replaces the document's when present and the document's value is kept when absent. `updatedAt` is always the clock value, even if the update supplies one. |
| MockStore.MergeNothing | hooks/use-mock-store.ts:62 | The empty update changes only `updatedAt`. |
| MockStore.MergeTitleOnly | hooks/use-mock-store.ts:62 | A title update changes only the title and `updatedAt`. |
| MockStore.MergeTwice | hooks/use-mock-store.ts:62 | Two successive merges equal one merge of the combined update at the later time. |
| MockStore.OverGetOr | hooks/use-mock-store.ts:62 | Reading a field through two spreads in a row equals reading it through their combination. |
| MockStore.Updated | hooks/use-mock-store.ts:61-63 | The list keeps its length and order. Every document with the id is merged, and every other document is unchanged. |
| MockStore.UpdatedAbsent | hooks/use-mock-store.ts:61-63 | Updating an id that no document has leaves the list as it was. |
| MockStore.UpdatedOne | hooks/use-mock-store.ts:61-63 | When ids are unique, the update replaces exactly the one document with that id by its merge. |
| MockStore.UpdatedTwice | hooks/use-mock-store.ts:60-65 | Two updates of one id equal a single update with the combined patch at the later time, provided the first update does not rename the document away from that id. |
| MockStore.LastTitleWins | hooks/use-mock-store.ts:60-65 | After two title updates of an id, every document with that id has the second title and the second time, and all its other fields unchanged. |
| MockStore.UpdatedKeepsIds | hooks/use-mock-store.ts:61-63 | An update without an `id` field keeps every document's id, so it keeps the ids unique and non-empty. |
| MockStore.NewDocument | hooks/use-mock-store.ts:41-54 | The new page has the fresh id and the given workspace. Its title is "Untitled", its content, icon and cover are null, it is neither archived nor published, it belongs to "user-1", and both timestamps are the clock value. Its parent is `parentId` when that is a non-empty string and null otherwise, so "" is never stored as a parent. |
| MockStore.AppendFreshKeepsUnique | hooks/use-mock-store.ts:55 | Appending a document with a fresh id keeps the ids unique. |
| MockStore.Store.constructor | hooks/use-mock-store.ts:7-38 | The store starts with the single welcome page "doc-1" titled "Getting Started" in workspace "ws-1", and with the single workspace "ws-1". The component state equals the module list. |
| MockStore.Store.CreateDoc | hooks/use-mock-store.ts:40-58 | Returns `NewDocument` of its arguments. The list becomes the old list with that document appended, and the component state is set to the new list. |
| MockStore.Store.UpdateDoc | hooks/use-mock-store.ts:60-65 | The list becomes `Updated` of the old list, and the component state is set to the new list. |
| Sidebar.Roots | components/sidebar/sidebar.tsx:46 | A document is a root row exactly when it is listed and its parent reference is null or "". |
| Sidebar.Children | components/sidebar/sidebar.tsx:125 | A document is among the children of `id` exactly when it is listed and its parent reference equals `id`. |
| Sidebar.RootsInOrder | components/sidebar/sidebar.tsx:46 | The roots of `a + b` are the roots of `a` followed by those of `b`, and a single document is its own root list exactly when it is a root. |
| Sidebar.ChildrenInOrder | components/sidebar/sidebar.tsx:125 | The same order property for the children of an id. |
| Sidebar.RootListedOnce | components/sidebar/sidebar.tsx:46 | When ids are unique, a root occurs once among the roots, and a non-root does not occur. |
| Sidebar.ChildOfOne | components/sidebar/sidebar.tsx:125 | When ids are unique, a document is a child of at most one listed document. |
| Sidebar.ChildOfParent | components/sidebar/sidebar.tsx:125 | A listed document is a child of a listed document exactly when its parent reference names that document. |
| Sidebar.RootIsNoChild | components/sidebar/sidebar.tsx:46 | When ids are non-empty, a root is not a child of any listed document, so it is drawn only at the top level. |
| Sidebar.Toggled | components/sidebar/sidebar.tsx:40-43 | The toggled id reads as the opposite of what it read before, a missing entry counting as collapsed. Every other key keeps its presence and its value. |
| Sidebar.ToggleTwice | components/sidebar/sidebar.tsx:39-44 | Toggling the same id twice restores what every id reads as. |
| Sidebar.ExpandState.constructor | components/sidebar/sidebar.tsx:37 | The expand map starts empty. |
| Sidebar.ExpandState.OnExpand | components/sidebar/sidebar.tsx:39-44 | The map becomes `Toggled` of the old map. The toggled id flips, and every other id reads as before. |
| Sidebar.VisibleRows | components/sidebar/sidebar.tsx:88-184 | Every row shows a listed document and is drawn from it: padding `level*12+12`, its icon or the page icon, and a spacer exactly when the document has no children. Top-level rows are roots, and a top-level row is active exactly when the route names its document. A top-level row with children points its chevron down exactly when the expand map sets its entry, a missing entry counting as collapsed. Deeper rows are never active and never show a right chevron. The first row is at level 0. Each row is at most one level deeper than the row before it, and only a row with a down chevron is followed by a deeper row. The nearest shallower row above a row is its parent. |
| Sidebar.VisibleTopLevel | components/sidebar/sidebar.tsx:88-99 | The documents of the level-0 rows are exactly the roots, each once, in list order. |
| Sidebar.OnlyRootEntriesMatter | components/sidebar/sidebar.tsx:95 | The rows depend on the expand map only through the entries of the roots' ids, because descendants receive their root's flag. |
| Sidebar.AllCollapsed | components/sidebar/sidebar.tsx:88-99 | When every root is collapsed, the sidebar shows exactly one collapsed row per root, in order, and nothing else. |
| Sidebar.ChainBound | components/sidebar/sidebar.tsx:172-184 | When ids are unique and non-empty, a chain from a root through its descendants never revisits a document, so it is no longer than the list. |
| Sidebar.FuelSuffices | components/sidebar/sidebar.tsx:107-187 | When ids are unique and non-empty, rendering with any fuel of at least the number of documents gives exactly the rows of `VisibleRows`. |
| Sidebar.ExpandedShowsChildren | components/sidebar/sidebar.tsx:172-184 | When ids are unique and non-empty, a row with a down chevron is followed at once by its first child, one level deeper. In the run of deeper rows below it, the rows one level deeper are exactly its children, each once, in list order. A top-level row whose map entry is unset has nothing below it. A top-level row whose entry is set, and every deeper row, has exactly its children below it. So an expanded root shows its whole subtree, and a collapsed root shows only its own row. |
| Page.FirstIndex | app/page.tsx:23 | Returns the position of the first document whose id equals the active id, or -1 when there is none. A null active id matches nothing. |
| Page.CurrentDoc | app/page.tsx:23 | A document is found exactly when some listed document has the active id. The document found is listed and has that id, and it is the first document in the list that has it. |
| Page.CurrentDocOfListed | app/page.tsx:23 | When ids are unique, looking up a listed document's id finds that very document. |
| Page.CurrentDocPrefix | app/page.tsx:23 | Documents appended after the first match do not change the lookup. |
| Page.HeaderLabel | app/page.tsx:64 | The header is never empty. It shows the current document's title when that is non-empty, and "Select a page" otherwise. |
| Page.PersistedTitle | app/page.tsx:42 | The stored title is never empty. It equals the typed title when that is non-empty, and "Untitled" otherwise. |
| Page.MainView | app/page.tsx:68-89 | The placeholder is shown exactly when there is no current document. Otherwise the editor shows the current document with the local title and is keyed by its id. |
| Page.InitialSelection | app/page.tsx:17-32 | With no usable active id and a non-empty list, the first document becomes current and its title is shown. Otherwise the active id is left alone. The list never changes. |
| Page.SettledShowsStoredTitle | app/page.tsx:23-32 | Once the effects have run, the title input holds the current document's title, or "" without one. The editor view shows that stored title, and the header shows it too, falling back to "Select a page" when it is empty. |
| Page.SettleIdempotent | app/page.tsx:17-32 | Running both effects on a settled state changes nothing, so the effects stop firing. |
| Page.AddThenSettle | app/page.tsx:34-37 | Adding a page with a fresh non-empty id appends the new page to the list. It becomes the active and current document, and the title shows "Untitled". |
| Page.AddedRootIsLastRoot | app/page.tsx:34-37 | A page added without a non-empty parent becomes the last root in the sidebar. |
| Page.AddedChildIsLastChild | app/page.tsx:34-37 | A page added under `p` becomes the last child of `p`, and no other id gains a child. |
| Page.RenameThenSettle | app/page.tsx:39-44 | With a current document, the input shows exactly what was typed, and the current document's title becomes the typed title, or "Untitled" for "". Once the effects have run, the shown title is the stored one. |
| Page.RenameWithoutActive | app/page.tsx:39-44 | Without a usable active id, typing saves nothing. The store, the current document and the header stay as they were, while the title input shows the typed text. |
| Page.SelectUnknown | app/page.tsx:46-48 | Selecting an id no document has leaves no current document. The placeholder is shown, the title is "", and the header reads "Select a page". |
| Page.SelectListed | app/page.tsx:46-48 | When ids are unique, selecting a listed document makes it current. Its title is shown, and the editor for it is keyed by its id. |
| Page.EditorUpdateOnlyCurrent | app/page.tsx:82 | An editor update writes the new content to the current document. Every document with another id, the active id and the title are unchanged, and the list keeps its length. |
| Page.Shell.constructor | app/page.tsx:11-14 | The shell starts with the seeded store, no active id and an empty title. |
| Page.Shell.SelectInitialEffect | app/page.tsx:17-21 | The shell's state moves by `SelectInitial`, and the store stays consistent. |
| Page.Shell.SyncTitleEffect | app/page.tsx:26-32 | The shell's state moves by `SyncTitle`. |
| Page.Shell.Settled | app/page.tsx:17-32 | The shell's state moves by `Settle`, the two effects in declaration order. |
| Page.Shell.HandleAdd | app/page.tsx:34-37 | The shell's state moves by `AddStep`: the store appends the new page in "ws-1", and its id becomes active. |
| Page.Shell.OnUpdateTitle | app/page.tsx:39-44 | The shell's state moves by `UpdateTitleStep`. |
| Page.Shell.HandleSelectDocument | app/page.tsx:46-48 | The shell's state moves by `SelectStep`. |
| Page.Shell.OnEditorUpdate | app/page.tsx:82 | The shell's state moves by `EditorUpdateStep`, writing the content to the current document. |

## Left out

- The database actions in `app/actions/documents.ts` are not part of this model. The shell uses only the mock store.
- The rich-text editor (`components/editor/editor.tsx`) is not modelled. Its content is an opaque string handed to `onUpdate`.
- Layout, styling and markup (the header logo, the Search and Settings buttons, CSS classes, tooltips, hover visibility) are not modelled. A row keeps only its document, level, padding, marker, glyph and active flag.
- `router.push` on a row click is left out, because navigation is outside this core. The route's `documentId` from `useParams` is the parameter `route`.
- React's render and effect scheduling is not modelled. Effects are explicit steps, assumed to run (`Settle`) after each handler and before the next event.
- `mockDocuments` is a module-level variable shared by every component that uses the hook. The model gives each `Store` its own list, so a second hook instance would not see another's changes.
- `Math.random().toString(36).substring(7)` and `new Date()` are parameters: `freshId` and `now`. One clock value serves both timestamps of a new document. The constructor's one clock value serves all four seed timestamps: those of the welcome page and those of the workspace.
- An explicit `undefined` inside a `Partial<Document>` overwrites a field when spread. The model treats it as an absent field.
- Sidebar.Item: the source recursion is unbounded. It never ends when the parent references form a cycle reachable from a root whose expand entry is set. A collapsed root stops the recursion at its own row, because its descendants receive its flag. One example is an expanded document with id "" and parent "": it is a root, because "" is falsy, and also its own child. Another is two documents sharing an id `x`: an expanded root, and a document with parent `x`. The model stops when fuel runs out. `FuelSuffices` proves that this stop is never reached when ids are unique and non-empty.
- Unique ids and non-empty ids are not enforced by the source. They appear as preconditions only on the lemmas that need them.
- The `onSelect` and `activeId` props that `app/page.tsx` passes to the sidebar are not declared by it and never read, so nothing models them. Nothing in the source calls `handleSelectDocument`: its only use is that undeclared prop. The model treats it as an event that no current caller raises.
- The `workspaces` value that the hook returns is modelled only as the constant list it is.
- Page.RenameThenSettle: typing an empty title stores "Untitled". The input shows "" only until the title-sync effect runs. The update replaces the current document, so the effect does run, and from then on the input shows "Untitled".
- MockStore.Updated: `new Date()` at hooks/use-mock-store.ts:62 runs once for each matching document, inside the `.map` callback. The model stamps every match with the one clock value `now`. The two differ only when several documents share the id.
- Sidebar.Expanded: `expanded[id]` on a plain object also finds inherited `Object.prototype` members, so an id such as "constructor" would read as expanded without an entry. The model reads every missing entry as collapsed. The store's ids are "doc-1" and random base-36 strings. Of the inherited names, only "constructor" is written with such characters alone.
- React runs an effect only when one of its dependencies has changed, while `Settle` runs both effects after every handler. The two differ only when a title is typed while the active id is falsy and still names a current document, that is, a document whose id is "". React then keeps the typed text in the input, while `Settle` puts back the stored title.
