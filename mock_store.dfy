/**
 * The in-memory document store of hooks/use-mock-store.ts: a module-level
 * list of documents, mirrored into component state, with `createDoc`
 * (append a document with default fields) and `updateDoc` (merge a partial
 * update into every document with a given id). Random ids and `new Date()`
 * are parameters: `freshId` and `now`.
 */
module MockStore {
  import opened Schema

  /**
   * `Partial<Document>`: each field is either absent (None) or present with
   * a value; for nullable fields the value itself may be `null`.
   */
  datatype Patch = Patch(
    id: Option<Id>,
    title: Option<string>,
    content: Option<Option<string>>,
    workspaceId: Option<Id>,
    parentDocumentId: Option<Option<Id>>,
    userId: Option<Id>,
    isArchived: Option<bool>,
    isPublished: Option<bool>,
    icon: Option<Option<string>>,
    coverImage: Option<Option<string>>,
    createdAt: Option<Time>,
    updatedAt: Option<Time>)

  /** The empty update `{}`. */
  const NoChanges := Patch(None, None, None, None, None, None, None, None, None, None, None, None)

  /** `{ title: t }` */
  function TitlePatch(t: string): Patch {
    NoChanges.(title := Some(t))
  }

  /** `{ content: c }` */
  function ContentPatch(c: string): Patch {
    NoChanges.(content := Some(Some(c)))
  }

  /** The user every mock document belongs to. */
  const MockUser := "user-1"

  /** One field of a spread: a value present in the later object wins. */
  function Over<T>(earlier: Option<T>, later: Option<T>): Option<T> {
    if later.Some? then later else earlier
  }

  /** Spreading `second` after `first`: a field present in `second` wins. */
  function Then(first: Patch, second: Patch): Patch {
    Patch(
      Over(first.id, second.id),
      Over(first.title, second.title),
      Over(first.content, second.content),
      Over(first.workspaceId, second.workspaceId),
      Over(first.parentDocumentId, second.parentDocumentId),
      Over(first.userId, second.userId),
      Over(first.isArchived, second.isArchived),
      Over(first.isPublished, second.isPublished),
      Over(first.icon, second.icon),
      Over(first.coverImage, second.coverImage),
      Over(first.createdAt, second.createdAt),
      Over(first.updatedAt, second.updatedAt))
  }

  /**
   * `{ ...doc, ...updates, updatedAt: now }`: every field present in the
   * update replaces the document's, every absent field is kept, and the
   * update time is the clock value whatever the update supplied.
   */
  function Merge(d: Document, p: Patch, now: Time): (r: Document)
    ensures p.id.Some? ==> r.id == p.id.value
    ensures p.id.None? ==> r.id == d.id
    ensures p.title.Some? ==> r.title == p.title.value
    ensures p.title.None? ==> r.title == d.title
    ensures p.content.Some? ==> r.content == p.content.value
    ensures p.content.None? ==> r.content == d.content
    ensures p.workspaceId.Some? ==> r.workspaceId == p.workspaceId.value
    ensures p.workspaceId.None? ==> r.workspaceId == d.workspaceId
    ensures p.parentDocumentId.Some? ==> r.parentDocumentId == p.parentDocumentId.value
    ensures p.parentDocumentId.None? ==> r.parentDocumentId == d.parentDocumentId
    ensures p.userId.Some? ==> r.userId == p.userId.value
    ensures p.userId.None? ==> r.userId == d.userId
    ensures p.isArchived.Some? ==> r.isArchived == p.isArchived.value
    ensures p.isArchived.None? ==> r.isArchived == d.isArchived
    ensures p.isPublished.Some? ==> r.isPublished == p.isPublished.value
    ensures p.isPublished.None? ==> r.isPublished == d.isPublished
    ensures p.icon.Some? ==> r.icon == p.icon.value
    ensures p.icon.None? ==> r.icon == d.icon
    ensures p.coverImage.Some? ==> r.coverImage == p.coverImage.value
    ensures p.coverImage.None? ==> r.coverImage == d.coverImage
    ensures p.createdAt.Some? ==> r.createdAt == p.createdAt.value
    ensures p.createdAt.None? ==> r.createdAt == d.createdAt
    ensures r.updatedAt == now
  {
    Document(
      p.id.GetOr(d.id),
      p.title.GetOr(d.title),
      p.content.GetOr(d.content),
      p.workspaceId.GetOr(d.workspaceId),
      p.parentDocumentId.GetOr(d.parentDocumentId),
      p.userId.GetOr(d.userId),
      p.isArchived.GetOr(d.isArchived),
      p.isPublished.GetOr(d.isPublished),
      p.icon.GetOr(d.icon),
      p.coverImage.GetOr(d.coverImage),
      p.createdAt.GetOr(d.createdAt),
      now)
  }

  /** The empty update only stamps the update time. */
  lemma MergeNothing(d: Document, now: Time)
    ensures Merge(d, NoChanges, now) == d.(updatedAt := now)
  {
  }

  /** A title update leaves every field but the title and the update time as it was. */
  lemma MergeTitleOnly(d: Document, t: string, now: Time)
    ensures Merge(d, TitlePatch(t), now) == d.(title := t, updatedAt := now)
  {
  }

  /** Two merges in a row amount to one merge of the combined update at the later time. */
  lemma MergeTwice(d: Document, p: Patch, q: Patch, t1: Time, t2: Time)
    ensures Merge(Merge(d, p, t1), q, t2) == Merge(d, Then(p, q), t2)
  {
    OverGetOr(p.id, q.id, d.id);
    OverGetOr(p.title, q.title, d.title);
    OverGetOr(p.content, q.content, d.content);
    OverGetOr(p.workspaceId, q.workspaceId, d.workspaceId);
    OverGetOr(p.parentDocumentId, q.parentDocumentId, d.parentDocumentId);
    OverGetOr(p.userId, q.userId, d.userId);
    OverGetOr(p.isArchived, q.isArchived, d.isArchived);
    OverGetOr(p.isPublished, q.isPublished, d.isPublished);
    OverGetOr(p.icon, q.icon, d.icon);
    OverGetOr(p.coverImage, q.coverImage, d.coverImage);
    OverGetOr(p.createdAt, q.createdAt, d.createdAt);
  }

  /** Reading a field through two spreads is reading it through their combination. */
  lemma OverGetOr<T>(earlier: Option<T>, later: Option<T>, x: T)
    ensures later.GetOr(earlier.GetOr(x)) == Over(earlier, later).GetOr(x)
  {
  }

  /**
   * `mockDocuments.map(doc => doc.id === id ? merged : doc)`: the list keeps
   * its length and order, documents with the id are merged, the rest are kept.
   */
  function Updated(docs: seq<Document>, id: Id, p: Patch, now: Time): (r: seq<Document>)
    ensures |r| == |docs|
    ensures forall i :: 0 <= i < |docs| && docs[i].id == id ==> r[i] == Merge(docs[i], p, now)
    ensures forall i :: 0 <= i < |docs| && docs[i].id != id ==> r[i] == docs[i]
  {
    if docs == [] then []
    else [if docs[0].id == id then Merge(docs[0], p, now) else docs[0]] + Updated(docs[1..], id, p, now)
  }

  /** Updating an id no document has leaves the list as it was. */
  lemma UpdatedAbsent(docs: seq<Document>, id: Id, p: Patch, now: Time)
    requires forall d :: d in docs ==> d.id != id
    ensures Updated(docs, id, p, now) == docs
  {
    var r := Updated(docs, id, p, now);
    assert forall i :: 0 <= i < |docs| ==> r[i] == docs[i];
  }

  /** With unique ids, an update changes exactly the one document that has the id. */
  lemma UpdatedOne(docs: seq<Document>, k: nat, p: Patch, now: Time)
    requires UniqueIds(docs) && k < |docs|
    ensures Updated(docs, docs[k].id, p, now) == docs[k := Merge(docs[k], p, now)]
  {
    var r := Updated(docs, docs[k].id, p, now);
    forall i | 0 <= i < |docs| ensures r[i] == docs[k := Merge(docs[k], p, now)][i] {
      if i != k {
        assert i < k || k < i;
        assert docs[i].id != docs[k].id;
      }
    }
  }

  /**
   * Two updates of the same id amount to one update with the combined patch
   * at the later time, as long as the first does not rename the document
   * away from that id. In particular the last title written wins.
   */
  lemma UpdatedTwice(docs: seq<Document>, id: Id, p: Patch, q: Patch, t1: Time, t2: Time)
    requires p.id.None? || p.id == Some(id)
    ensures Updated(Updated(docs, id, p, t1), id, q, t2) == Updated(docs, id, Then(p, q), t2)
  {
    var once := Updated(docs, id, p, t1);
    var twice := Updated(once, id, q, t2);
    var combined := Updated(docs, id, Then(p, q), t2);
    forall i | 0 <= i < |docs| ensures twice[i] == combined[i] {
      if docs[i].id == id {
        MergeTwice(docs[i], p, q, t1, t2);
      }
    }
  }

  /** The last of two title updates decides the title of every document with the id. */
  lemma LastTitleWins(docs: seq<Document>, id: Id, x: string, y: string, t1: Time, t2: Time)
    ensures forall i :: 0 <= i < |docs| && docs[i].id == id ==>
      Updated(Updated(docs, id, TitlePatch(x), t1), id, TitlePatch(y), t2)[i] == docs[i].(title := y, updatedAt := t2)
  {
    UpdatedTwice(docs, id, TitlePatch(x), TitlePatch(y), t1, t2);
    var r := Updated(docs, id, Then(TitlePatch(x), TitlePatch(y)), t2);
    forall i | 0 <= i < |r| && docs[i].id == id ensures r[i] == docs[i].(title := y, updatedAt := t2) {
      assert Then(TitlePatch(x), TitlePatch(y)) == TitlePatch(y);
      MergeTitleOnly(docs[i], y, t2);
    }
  }

  /** An update that does not touch the id field keeps the ids, hence their uniqueness. */
  lemma UpdatedKeepsIds(docs: seq<Document>, id: Id, p: Patch, now: Time)
    requires p.id.None?
    ensures forall i :: 0 <= i < |docs| ==> Updated(docs, id, p, now)[i].id == docs[i].id
    ensures UniqueIds(docs) ==> UniqueIds(Updated(docs, id, p, now))
    ensures NonEmptyIds(docs) ==> NonEmptyIds(Updated(docs, id, p, now))
  {
  }

  /**
   * The document `createDoc` builds: title "Untitled", no content, not
   * archived, not published, no icon, no cover, owned by the mock user, and
   * a parent only when `parentId` is a non-empty string (`parentId || null`).
   */
  function NewDocument(freshId: Id, workspaceId: Id, parentId: Option<Id>, now: Time): (d: Document)
    ensures d.id == freshId && d.workspaceId == workspaceId
    ensures d.title == "Untitled" && d.content == None && d.userId == MockUser
    ensures !d.isArchived && !d.isPublished && d.icon == None && d.coverImage == None
    ensures d.createdAt == now && d.updatedAt == now
    ensures Truthy(parentId) ==> d.parentDocumentId == parentId
    ensures !Truthy(parentId) ==> d.parentDocumentId == None
    // the empty string is never stored as a parent reference
    ensures d.parentDocumentId != Some("")
  {
    Document(
      freshId, "Untitled", None, workspaceId,
      if Truthy(parentId) then parentId else None,
      MockUser, false, false, None, None, now, now)
  }

  /** A fresh id keeps the ids of the list unique after the append. */
  lemma AppendFreshKeepsUnique(docs: seq<Document>, d: Document)
    requires UniqueIds(docs)
    requires forall e :: e in docs ==> e.id != d.id
    ensures UniqueIds(docs + [d])
  {
    var r := docs + [d];
    forall i, j | 0 <= i < j < |r| ensures r[i].id != r[j].id {
      if j == |docs| {
        assert r[i] in docs;
      } else {
        assert r[i] == docs[i] && r[j] == docs[j];
      }
    }
  }

  /** The welcome page the mock store starts with. */
  function SeedDocument(now: Time): Document {
    Document("doc-1", "Getting Started", Some(WelcomeContent), "ws-1", None, MockUser, false, false, Some("\U{1F680}"), None, now, now)
  }

  /** The editor JSON of the seed page: one level-1 heading reading "Welcome to Notion Clone!". */
  const WelcomeContent: string :=
    "{\"type\":\"doc\",\"content\":[{\"type\":\"heading\",\"attrs\":{\"level\":1},\"content\":[{\"type\":\"text\",\"text\":\"Welcome to Notion Clone!\"}]}]}"

  /** The one workspace the mock store knows. */
  function SeedWorkspace(now: Time): Workspace {
    Workspace("ws-1", "My Workspace", MockUser, None, now, now)
  }

  /**
   * The store as one component sees it: `mockDocuments` is the module-level
   * list, `documents` the React state it is pushed into after each change.
   */
  class Store {
    var mockDocuments: seq<Document>
    var documents: seq<Document>
    const workspaces: seq<Workspace>

    /** The exposed state always equals the module-level list. */
    ghost predicate Valid()
      reads this
    {
      documents == mockDocuments
    }

    /** Module initialisation followed by `useState(mockDocuments)`. */
    constructor (now: Time)
      ensures Valid()
      ensures mockDocuments == [SeedDocument(now)]
      ensures workspaces == [SeedWorkspace(now)]
    {
      mockDocuments := [SeedDocument(now)];
      documents := mockDocuments;
      workspaces := [SeedWorkspace(now)];
    }

    /** `createDoc(workspaceId, parentId)`: appends the new document and returns it. */
    method CreateDoc(workspaceId: Id, parentId: Option<Id>, freshId: Id, now: Time) returns (newDoc: Document)
      modifies this
      ensures Valid()
      ensures newDoc == NewDocument(freshId, workspaceId, parentId, now)
      ensures mockDocuments == old(mockDocuments) + [newDoc]
      ensures mockDocuments[|mockDocuments| - 1] == newDoc
    {
      newDoc := NewDocument(freshId, workspaceId, parentId, now);
      mockDocuments := mockDocuments + [newDoc];
      documents := mockDocuments;
    }

    /** `updateDoc(id, updates)`: merges the update into every document with that id. */
    method UpdateDoc(id: Id, updates: Patch, now: Time)
      modifies this
      ensures Valid()
      ensures mockDocuments == Updated(old(mockDocuments), id, updates, now)
    {
      mockDocuments := Updated(mockDocuments, id, updates, now);
      documents := mockDocuments;
    }
  }
}
