/**
 * The page shell of app/page.tsx: the active document id and the local
 * title, the two effects that keep them in step with the document list,
 * and the handlers wired to the sidebar, the title input and the editor.
 *
 * React re-renders and runs effects on its own schedule; here each effect
 * is an explicit step, and `Settle` runs both of them after a handler, as
 * React does before the next user event can arrive.
 */
module Page {
  import opened Schema
  import opened MockStore
  import opened Sidebar

  /** The workspace every page created from the shell goes to. */
  const ShellWorkspace: Id := "ws-1"

  // ---------------------------------------------------------------------
  // Derived values
  // ---------------------------------------------------------------------

  /**
   * The position of the first document whose id is `activeId`, or -1.
   * A `null` active id matches nothing.
   */
  function FirstIndex(docs: seq<Document>, activeId: Option<Id>): (k: int)
    ensures -1 <= k < |docs|
    ensures k >= 0 ==> activeId == Some(docs[k].id)
    ensures forall j :: 0 <= j < |docs| && (k < 0 || j < k) ==> activeId != Some(docs[j].id)
  {
    if docs == [] then -1
    else if activeId == Some(docs[0].id) then 0
    else
      var k := FirstIndex(docs[1..], activeId);
      if k < 0 then -1 else k + 1
  }

  /** `documents.find(doc => doc.id === activeId)` */
  function CurrentDoc(docs: seq<Document>, activeId: Option<Id>): (r: Option<Document>)
    ensures r.Some? <==> exists i :: 0 <= i < |docs| && activeId == Some(docs[i].id)
    ensures r.Some? ==> r.value in docs && activeId == Some(r.value.id)
    // with repeated ids, the first document that has the id is the one found
    ensures r.Some? ==> r.value == docs[FirstIndex(docs, activeId)]
  {
    var k := FirstIndex(docs, activeId);
    if k < 0 then None else Some(docs[k])
  }

  /** With unique ids, selecting a listed document's id finds that very document. */
  lemma CurrentDocOfListed(docs: seq<Document>, d: Document)
    requires UniqueIds(docs) && d in docs
    ensures CurrentDoc(docs, Some(d.id)) == Some(d)
  {
    var r := CurrentDoc(docs, Some(d.id));
    SameIdSameDocument(docs, r.value, d);
  }

  /** Whatever follows them, the documents before the first match decide the lookup. */
  lemma CurrentDocPrefix(docs: seq<Document>, more: seq<Document>, activeId: Option<Id>)
    requires CurrentDoc(docs, activeId).Some?
    ensures CurrentDoc(docs + more, activeId) == CurrentDoc(docs, activeId)
  {
    var k := FirstIndex(docs, activeId);
    var k' := FirstIndex(docs + more, activeId);
    assert (docs + more)[k] == docs[k];
  }

  /** `currentDoc?.title || "Select a page"` */
  function HeaderLabel(cur: Option<Document>): (s: string)
    ensures s != ""
    ensures cur.Some? && cur.value.title != "" ==> s == cur.value.title
    ensures cur.None? || cur.value.title == "" ==> s == "Select a page"
  {
    if cur.Some? && cur.value.title != "" then cur.value.title else "Select a page"
  }

  /** `newTitle || "Untitled"`: the title written to the store. */
  function PersistedTitle(t: string): (r: string)
    ensures r != ""
    ensures t != "" ==> r == t
    ensures t == "" ==> r == "Untitled"
  {
    if t == "" then "Untitled" else t
  }

  /** The main area: the title input and the editor for the current document, or the placeholder. */
  datatype View = Placeholder | EditorView(doc: Document, title: string, editorKey: Option<Id>)

  // ---------------------------------------------------------------------
  // Shell state and its transitions
  // ---------------------------------------------------------------------

  datatype ShellState = ShellState(documents: seq<Document>, activeId: Option<Id>, title: string)

  function Current(s: ShellState): Option<Document> {
    CurrentDoc(s.documents, s.activeId)
  }

  /** `currentDoc ? <editor/> : <placeholder/>`, the editor keyed by the active id. */
  function MainView(s: ShellState): (v: View)
    ensures v.Placeholder? <==> Current(s).None?
    ensures v.EditorView? ==> v.doc == Current(s).value && v.title == s.title
    ensures v.EditorView? ==> v.editorKey == Some(v.doc.id)
  {
    var cur := Current(s);
    if cur.Some? then EditorView(cur.value, s.title, s.activeId) else Placeholder
  }

  /** The initial-selection effect: with no (or an empty) active id, pick the first document. */
  function SelectInitial(s: ShellState): ShellState {
    if !Truthy(s.activeId) && |s.documents| > 0 then s.(activeId := Some(s.documents[0].id)) else s
  }

  /** The title-sync effect: the local title follows the current document, or is cleared. */
  function SyncTitle(s: ShellState): ShellState {
    var cur := Current(s);
    s.(title := if cur.Some? then cur.value.title else "")
  }

  /** Both effects, in the order they are declared. */
  function Settle(s: ShellState): ShellState {
    SyncTitle(SelectInitial(s))
  }

  /** `handleAdd(parentId)`: create a page in "ws-1" and make it the active one. */
  function AddStep(s: ShellState, parentId: Option<Id>, freshId: Id, now: Time): ShellState {
    s.(documents := s.documents + [NewDocument(freshId, ShellWorkspace, parentId, now)], activeId := Some(freshId))
  }

  /** `onUpdateTitle(t)`: the local title becomes `t`; with an active id the store gets `t || "Untitled"`. */
  function UpdateTitleStep(s: ShellState, t: string, now: Time): ShellState {
    if Truthy(s.activeId) then
      s.(title := t, documents := Updated(s.documents, s.activeId.value, TitlePatch(PersistedTitle(t)), now))
    else
      s.(title := t)
  }

  /** `handleSelectDocument(id)`: no check that the id is listed. */
  function SelectStep(s: ShellState, id: Id): ShellState {
    s.(activeId := Some(id))
  }

  /** The editor's `onUpdate(content)`, wired only while a current document is shown. */
  function EditorUpdateStep(s: ShellState, content: string, now: Time): ShellState
    requires Current(s).Some?
  {
    s.(documents := Updated(s.documents, Current(s).value.id, ContentPatch(content), now))
  }

  // ---------------------------------------------------------------------
  // Properties of the transitions
  // ---------------------------------------------------------------------

  /**
   * The initial selection: with no usable active id and a non-empty list,
   * the first document becomes active and its title is shown; otherwise
   * the active id is left alone.
   */
  lemma InitialSelection(s: ShellState)
    ensures !Truthy(s.activeId) && |s.documents| > 0 ==>
      Settle(s).activeId == Some(s.documents[0].id) && Current(Settle(s)) == Some(s.documents[0]) &&
      Settle(s).title == s.documents[0].title
    ensures Truthy(s.activeId) || |s.documents| == 0 ==> Settle(s).activeId == s.activeId
    ensures Settle(s).documents == s.documents
  {
    if !Truthy(s.activeId) && |s.documents| > 0 {
      assert FirstIndex(s.documents, Some(s.documents[0].id)) == 0;
    }
  }

  /**
   * After the effects, what the page shows agrees with the store: the title
   * input holds the current document's title (or "" without one), and the
   * header shows that title, falling back to "Select a page" when it is
   * empty.
   */
  lemma SettledShowsStoredTitle(s: ShellState)
    ensures var t := Settle(s);
      && (Current(t).Some? ==> t.title == Current(t).value.title)
      && (Current(t).None? ==> t.title == "")
      && HeaderLabel(Current(t)) == (if t.title != "" then t.title else "Select a page")
      && (MainView(t).EditorView? ==> MainView(t).title == MainView(t).doc.title)
  {
  }

  /** Once settled, running the effects again changes nothing: they stop firing. */
  lemma SettleIdempotent(s: ShellState)
    ensures Settle(Settle(s)) == Settle(s)
  {
    var a := SelectInitial(s);
    if !Truthy(s.activeId) && |s.documents| > 0 {
      assert SelectInitial(SyncTitle(a)) == SyncTitle(a);
    }
  }

  /**
   * Adding a page with a fresh non-empty id: the list grows by the new page
   * at the end, it becomes the current document, and the title shows
   * "Untitled".
   */
  lemma AddThenSettle(s: ShellState, parentId: Option<Id>, freshId: Id, now: Time)
    requires freshId != ""
    requires forall d :: d in s.documents ==> d.id != freshId
    ensures var t := Settle(AddStep(s, parentId, freshId, now));
      && t.documents == s.documents + [NewDocument(freshId, ShellWorkspace, parentId, now)]
      && t.activeId == Some(freshId)
      && Current(t) == Some(NewDocument(freshId, ShellWorkspace, parentId, now))
      && t.title == "Untitled"
  {
    var nd := NewDocument(freshId, ShellWorkspace, parentId, now);
    var docs := s.documents + [nd];
    assert docs[|s.documents|] == nd;
    assert FirstIndex(docs, Some(freshId)) == |s.documents|;
  }

  /** A page added without a (non-empty) parent is the last root of the sidebar. */
  lemma AddedRootIsLastRoot(s: ShellState, parentId: Option<Id>, freshId: Id, now: Time)
    requires !Truthy(parentId)
    ensures Roots(AddStep(s, parentId, freshId, now).documents) ==
      Roots(s.documents) + [NewDocument(freshId, ShellWorkspace, parentId, now)]
  {
    RootsInOrder(s.documents, [NewDocument(freshId, ShellWorkspace, parentId, now)], NewDocument(freshId, ShellWorkspace, parentId, now));
  }

  /** A page added under `p` is the last child of `p`, and no other document gains a child. */
  lemma AddedChildIsLastChild(s: ShellState, p: Id, freshId: Id, now: Time, other: Id)
    requires p != "" && other != p
    ensures Children(AddStep(s, Some(p), freshId, now).documents, p) ==
      Children(s.documents, p) + [NewDocument(freshId, ShellWorkspace, Some(p), now)]
    ensures Children(AddStep(s, Some(p), freshId, now).documents, other) == Children(s.documents, other)
  {
    var nd := NewDocument(freshId, ShellWorkspace, Some(p), now);
    ChildrenInOrder(s.documents, [nd], nd, p);
    ChildrenInOrder(s.documents, [nd], nd, other);
  }

  /**
   * Renaming: the input shows exactly what was typed, and the store gets
   * the typed title, or "Untitled" for an empty one. After the effects
   * have run, the title shown is the stored one, so an empty title is
   * replaced by "Untitled" once the title-sync effect fires.
   */
  lemma RenameThenSettle(s: ShellState, t: string, now: Time)
    requires Truthy(s.activeId) && Current(s).Some?
    ensures UpdateTitleStep(s, t, now).title == t
    ensures Current(UpdateTitleStep(s, t, now)).Some?
    ensures Current(UpdateTitleStep(s, t, now)).value.title == PersistedTitle(t)
    ensures Settle(UpdateTitleStep(s, t, now)).title == PersistedTitle(t)
  {
    var u := UpdateTitleStep(s, t, now);
    var k := FirstIndex(s.documents, s.activeId);
    var id := s.activeId.value;
    assert u.documents[k] == Merge(s.documents[k], TitlePatch(PersistedTitle(t)), now);
    MergeTitleOnly(s.documents[k], PersistedTitle(t), now);
    assert FirstIndex(u.documents, s.activeId) == k;
  }

  /**
   * Without an active id, typing a title saves nothing: the input shows the
   * typed text while the current document, and so the header, keep the
   * stored title.
   */
  lemma RenameWithoutActive(s: ShellState, t: string, now: Time)
    requires !Truthy(s.activeId)
    ensures UpdateTitleStep(s, t, now).documents == s.documents
    ensures Current(UpdateTitleStep(s, t, now)) == Current(s)
    ensures HeaderLabel(Current(UpdateTitleStep(s, t, now))) == HeaderLabel(Current(s))
    ensures MainView(UpdateTitleStep(s, t, now)).EditorView? ==>
      MainView(UpdateTitleStep(s, t, now)).title == t &&
      MainView(UpdateTitleStep(s, t, now)).doc == Current(s).value
  {
  }

  /** Selecting an id no document has: no current document, the placeholder, and the default header. */
  lemma SelectUnknown(s: ShellState, id: Id)
    requires id != ""
    requires forall d :: d in s.documents ==> d.id != id
    ensures var t := Settle(SelectStep(s, id));
      && t.activeId == Some(id)
      && Current(t).None?
      && MainView(t) == Placeholder
      && t.title == ""
      && HeaderLabel(Current(t)) == "Select a page"
  {
  }

  /** Selecting a listed document (ids unique): it becomes current and its title is shown. */
  lemma SelectListed(s: ShellState, d: Document)
    requires UniqueIds(s.documents) && d in s.documents && d.id != ""
    ensures var t := Settle(SelectStep(s, d.id));
      Current(t) == Some(d) && t.title == d.title && MainView(t) == EditorView(d, d.title, Some(d.id))
  {
    CurrentDocOfListed(s.documents, d);
  }

  /**
   * An editor update writes the new content to the current document and to
   * every document sharing its id; every other document, the active id and
   * the title are left as they were.
   */
  lemma EditorUpdateOnlyCurrent(s: ShellState, content: string, now: Time)
    requires Current(s).Some?
    ensures |EditorUpdateStep(s, content, now).documents| == |s.documents|
    ensures EditorUpdateStep(s, content, now).activeId == s.activeId
    ensures EditorUpdateStep(s, content, now).title == s.title
    ensures Current(EditorUpdateStep(s, content, now)).Some?
    ensures Current(EditorUpdateStep(s, content, now)).value.content == Some(content)
    ensures forall i :: 0 <= i < |s.documents| && s.documents[i].id != Current(s).value.id ==>
      EditorUpdateStep(s, content, now).documents[i] == s.documents[i]
  {
    var t := EditorUpdateStep(s, content, now);
    var k := FirstIndex(s.documents, s.activeId);
    assert t.documents[k] == Merge(s.documents[k], ContentPatch(content), now);
    assert FirstIndex(t.documents, s.activeId) == k;
  }

  // ---------------------------------------------------------------------
  // The shell component
  // ---------------------------------------------------------------------

  /** The `NotionClone` component: the store hook plus the `activeId` and `title` state. */
  class Shell {
    const store: Store
    var activeId: Option<Id>
    var title: string

    ghost predicate Valid()
      reads this, store
    {
      store.Valid()
    }

    function State(): ShellState
      reads this, store
    {
      ShellState(store.documents, activeId, title)
    }

    /** First render: the seeded store, no active id, an empty title. */
    constructor (now: Time)
      ensures Valid() && fresh(store)
      ensures State() == ShellState([SeedDocument(now)], None, "")
    {
      store := new Store(now);
      activeId := None;
      title := "";
    }

    /** The initial-selection effect, the `useEffect` on `[documents, activeId]`. */
    method SelectInitialEffect()
      requires Valid()
      modifies this
      ensures Valid() && State() == SelectInitial(old(State()))
    {
      if !Truthy(activeId) && |store.documents| > 0 {
        activeId := Some(store.documents[0].id);
      }
    }

    /** The title-sync effect, the `useEffect` on `[activeId, currentDoc]`. */
    method SyncTitleEffect()
      requires Valid()
      modifies this
      ensures Valid() && State() == SyncTitle(old(State()))
    {
      var cur := CurrentDoc(store.documents, activeId);
      if cur.Some? {
        title := cur.value.title;
      } else {
        title := "";
      }
    }

    /** Both effects, after a handler has changed the state. */
    method Settled()
      requires Valid()
      modifies this
      ensures Valid() && State() == Settle(old(State()))
    {
      SelectInitialEffect();
      SyncTitleEffect();
    }

    method HandleAdd(parentId: Option<Id>, freshId: Id, now: Time)
      requires Valid()
      modifies this, store
      ensures Valid() && State() == AddStep(old(State()), parentId, freshId, now)
    {
      var newDoc := store.CreateDoc(ShellWorkspace, parentId, freshId, now);
      activeId := Some(newDoc.id);
    }

    method OnUpdateTitle(newTitle: string, now: Time)
      requires Valid()
      modifies this, store
      ensures Valid() && State() == UpdateTitleStep(old(State()), newTitle, now)
    {
      title := newTitle;
      if Truthy(activeId) {
        store.UpdateDoc(activeId.value, TitlePatch(PersistedTitle(newTitle)), now);
      }
    }

    method HandleSelectDocument(id: Id)
      requires Valid()
      modifies this
      ensures Valid() && State() == SelectStep(old(State()), id)
    {
      activeId := Some(id);
    }

    method OnEditorUpdate(content: string, now: Time)
      requires Valid() && Current(State()).Some?
      modifies store
      ensures Valid() && State() == EditorUpdateStep(old(State()), content, now)
    {
      var cur := CurrentDoc(store.documents, activeId);
      store.UpdateDoc(cur.value.id, ContentPatch(content), now);
    }
  }
}
