/**
 * The two record types of the note-taking application (lib/schema.ts):
 * a Workspace and a Document, a page in a forest keyed by a nullable
 * parent reference. Timestamps are clock values supplied by the caller.
 */
module Schema {

  type Id = string

  /** A clock reading (milliseconds); the model never reads a real clock. */
  type Time = int

  /** A nullable value: `T | null` in the source. */
  datatype Option<+T> = None | Some(value: T) {

    /** The value, or `default` when absent. */
    function GetOr(default: T): T {
      match this
      case Some(v) => v
      case None => default
    }
  }

  datatype Workspace = Workspace(
    id: Id,
    name: string,
    userId: Id,
    icon: Option<string>,
    createdAt: Time,
    updatedAt: Time)

  datatype Document = Document(
    id: Id,
    title: string,
    content: Option<string>,
    workspaceId: Id,
    parentDocumentId: Option<Id>,
    userId: Id,
    isArchived: bool,
    isPublished: bool,
    icon: Option<string>,
    coverImage: Option<string>,
    createdAt: Time,
    updatedAt: Time)

  /**
   * JavaScript truthiness of a `string | null`: both `null` and the empty
   * string are falsy.
   */
  predicate Truthy(s: Option<string>) {
    s.Some? && s.value != ""
  }

  /** No two positions of the list hold documents with the same id. */
  predicate UniqueIds(docs: seq<Document>) {
    forall i, j :: 0 <= i < j < |docs| ==> docs[i].id != docs[j].id
  }

  /** Every document has a non-empty id. */
  predicate NonEmptyIds(docs: seq<Document>) {
    forall i :: 0 <= i < |docs| ==> docs[i].id != ""
  }

  /** With unique ids, two listed documents are the same document exactly when their ids are equal. */
  lemma SameIdSameDocument(docs: seq<Document>, a: Document, b: Document)
    requires UniqueIds(docs)
    requires a in docs && b in docs
    ensures a.id == b.id <==> a == b
  {
    var i :| 0 <= i < |docs| && docs[i] == a;
    var j :| 0 <= j < |docs| && docs[j] == b;
    if a.id == b.id {
      assert docs[i].id == docs[j].id;
    }
  }
}
