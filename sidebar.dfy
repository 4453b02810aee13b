/**
 * The sidebar of components/sidebar/sidebar.tsx: the expand/collapse map,
 * the root and child filters over the flat document list, and the
 * recursive `DocumentItem` rendering, flattened into the sequence of rows
 * it displays, each with its indentation level.
 *
 * The source recursion has no bound; here it carries a fuel argument, and
 * `VisibleRows` starts with a fuel of |docs|. `FuelSuffices` proves that,
 * with unique non-empty ids, more fuel renders the very same rows.
 */
module Sidebar {
  import opened Schema
  import opened Seqs

  // ---------------------------------------------------------------------
  // Roots and children
  // ---------------------------------------------------------------------

  /** `!doc.parentDocumentId`: no parent, or the empty string. */
  predicate IsRoot(d: Document) {
    !Truthy(d.parentDocumentId)
  }

  /** `doc.parentDocumentId === id` */
  predicate IsChildOf(d: Document, id: Id) {
    d.parentDocumentId == Some(id)
  }

  function ChildOf(id: Id): Document -> bool {
    d => IsChildOf(d, id)
  }

  /** `documents.filter(doc => !doc.parentDocumentId)` */
  function Roots(docs: seq<Document>): (r: seq<Document>)
    ensures forall d :: d in r <==> d in docs && IsRoot(d)
  {
    Filter(docs, IsRoot)
  }

  /** `allDocuments.filter(doc => doc.parentDocumentId === document.id)` */
  function Children(docs: seq<Document>, id: Id): (r: seq<Document>)
    ensures forall d :: d in r <==> d in docs && IsChildOf(d, id)
  {
    Filter(docs, ChildOf(id))
  }

  /**
   * Roots keep the order of the list: the roots of a concatenation are the
   * roots of the first part followed by those of the second, and a single
   * document is its own root list exactly when it is a root.
   */
  lemma RootsInOrder(a: seq<Document>, b: seq<Document>, d: Document)
    ensures Roots(a + b) == Roots(a) + Roots(b)
    ensures Roots([d]) == if IsRoot(d) then [d] else []
  {
    FilterAppend(a, b, IsRoot);
    assert [d][1..] == [];
  }

  /** Children keep the order of the list, in the same sense as `RootsInOrder`. */
  lemma ChildrenInOrder(a: seq<Document>, b: seq<Document>, d: Document, id: Id)
    ensures Children(a + b, id) == Children(a, id) + Children(b, id)
    ensures Children([d], id) == if IsChildOf(d, id) then [d] else []
  {
    FilterAppend(a, b, ChildOf(id));
    assert [d][1..] == [];
  }

  /** With unique ids, every root is listed once among the roots. */
  lemma RootListedOnce(docs: seq<Document>, d: Document)
    requires UniqueIds(docs) && d in docs
    ensures multiset(Roots(docs))[d] == if IsRoot(d) then 1 else 0
  {
    FilterCount(docs, IsRoot, d);
    UniqueIdsOnce(docs, d);
  }

  /**
   * With unique ids a document is a child of at most one listed document:
   * the one whose id its parent reference names.
   */
  lemma ChildOfOne(docs: seq<Document>, d: Document, p: Document, q: Document)
    requires UniqueIds(docs) && p in docs && q in docs
    requires d in Children(docs, p.id) && d in Children(docs, q.id)
    ensures p == q
  {
    SameIdSameDocument(docs, p, q);
  }

  /** A listed document is a child of a listed document exactly when its parent reference names it. */
  lemma ChildOfParent(docs: seq<Document>, d: Document, p: Document)
    requires d in docs && p in docs
    ensures d in Children(docs, p.id) <==> d.parentDocumentId == Some(p.id)
  {
  }

  /** With non-empty ids, a root is nobody's child. */
  lemma RootIsNoChild(docs: seq<Document>, d: Document, p: Document)
    requires NonEmptyIds(docs) && IsRoot(d) && p in docs
    ensures d !in Children(docs, p.id)
  {
    var k :| 0 <= k < |docs| && docs[k] == p;
    assert p.id != "";
  }

  /** With unique ids a listed document occurs once in the list. */
  lemma UniqueIdsOnce(docs: seq<Document>, d: Document)
    requires UniqueIds(docs) && d in docs
    ensures multiset(docs)[d] == 1
  {
    assert Distinct(docs) by {
      forall i, j | 0 <= i < j < |docs| ensures docs[i] != docs[j] {
        assert docs[i].id != docs[j].id;
      }
    }
    DistinctOnce(docs, d);
  }

  // ---------------------------------------------------------------------
  // Expand state
  // ---------------------------------------------------------------------

  /** `expanded[id]` read as a boolean: a missing entry is collapsed. */
  function Expanded(m: map<Id, bool>, id: Id): bool {
    id in m && m[id]
  }

  /** `{ ...prev, [id]: !prev[id] }` */
  function Toggled(m: map<Id, bool>, id: Id): (r: map<Id, bool>)
    ensures id in r && Expanded(r, id) == !Expanded(m, id)
    ensures forall k :: k != id ==> (k in r <==> k in m)
    ensures forall k :: k != id && k in m ==> r[k] == m[k]
  {
    m[id := !Expanded(m, id)]
  }

  /** Toggling the same id twice restores what every id reads as. */
  lemma ToggleTwice(m: map<Id, bool>, id: Id)
    ensures forall k :: Expanded(Toggled(Toggled(m, id), id), k) == Expanded(m, k)
  {
  }

  /** The `expanded` state of the sidebar component. */
  class ExpandState {
    var expanded: map<Id, bool>

    /** `useState<Record<string, boolean>>({})` */
    constructor ()
      ensures expanded == map[]
    {
      expanded := map[];
    }

    /** `onExpand(id)`: flips the entry of `id`, a missing entry counting as collapsed. */
    method OnExpand(id: Id)
      modifies this
      ensures expanded == Toggled(old(expanded), id)
      ensures Expanded(expanded, id) == !Expanded(old(expanded), id)
      ensures forall k :: k != id ==> Expanded(expanded, k) == Expanded(old(expanded), k)
    {
      expanded := Toggled(expanded, id);
    }
  }

  // ---------------------------------------------------------------------
  // Rows
  // ---------------------------------------------------------------------

  /** What is drawn in the toggle slot of a row. */
  datatype Marker = Spacer | ChevronRight | ChevronDown

  /** The page glyph: the document's icon, or the generic page icon. */
  datatype Glyph = Emoji(text: string) | PageIcon

  /** One rendered `DocumentItem` row. */
  datatype Row = Row(doc: Document, level: nat, paddingLeft: nat, marker: Marker, glyph: Glyph, active: bool)

  /** `paddingLeft: level * 12 + 12` pixels */
  function Padding(level: nat): nat {
    level * 12 + 12
  }

  function GlyphFor(icon: Option<string>): Glyph {
    if Truthy(icon) then Emoji(icon.value) else PageIcon
  }

  /** The toggle slot of `d`: a chevron only when `d` has children, pointing down when expanded. */
  function MarkerFor(docs: seq<Document>, d: Document, expanded: bool): Marker {
    if |Children(docs, d.id)| > 0 then (if expanded then ChevronDown else ChevronRight) else Spacer
  }

  /** The row of `d` at `level`. */
  function RowOf(docs: seq<Document>, d: Document, level: nat, expanded: bool, active: bool): Row {
    Row(d, level, Padding(level), MarkerFor(docs, d, expanded), GlyphFor(d.icon), active)
  }

  /** A row drawn as its document and level say: padding, glyph, and a spacer iff it has no children. */
  ghost predicate Drawn(docs: seq<Document>, row: Row) {
    && row.paddingLeft == Padding(row.level)
    && row.glyph == GlyphFor(row.doc.icon)
    && (row.marker == Spacer <==> Children(docs, row.doc.id) == [])
  }

  /** The indentation grows by at most one level from a row to the next. */
  ghost predicate Indented(rows: seq<Row>) {
    forall i, j :: 0 <= i && j == i + 1 && j < |rows| ==> rows[j].level <= rows[i].level + 1
  }

  /** Only a row whose chevron points down is followed by a deeper row. */
  ghost predicate Closed(rows: seq<Row>) {
    forall i, j :: 0 <= i && j == i + 1 && j < |rows| && rows[i].marker != ChevronDown ==> rows[j].level <= rows[i].level
  }

  /** No row strictly between positions j and i is shallower than row i. */
  ghost predicate NoShallowerBetween(rows: seq<Row>, j: int, i: int)
    requires 0 <= j < i < |rows|
  {
    forall k :: j < k < i ==> rows[k].level >= rows[i].level
  }

  /**
   * The indentation shows the tree: the nearest row above a row that is one
   * level shallower (with nothing shallower in between) is its parent.
   */
  ghost predicate Nested(rows: seq<Row>) {
    forall j, i {:trigger NoShallowerBetween(rows, j, i)} ::
      0 <= j < i < |rows| && rows[i].level == rows[j].level + 1 && NoShallowerBetween(rows, j, i) ==>
      IsChildOf(rows[i].doc, rows[j].doc.id)
  }

  /** Every row is at `level` or deeper. */
  ghost predicate Below(rows: seq<Row>, level: nat) {
    forall i :: 0 <= i < |rows| ==> rows[i].level >= level
  }

  /** Every row is one of the list's documents, drawn as `Drawn` says. */
  ghost predicate AllDrawn(docs: seq<Document>, rows: seq<Row>) {
    forall i :: 0 <= i < |rows| ==> rows[i].doc in docs && Drawn(docs, rows[i])
  }

  /** The rows that one call of the renderer draws at base indentation `level`. */
  ghost predicate Block(rows: seq<Row>, level: nat) {
    && Below(rows, level)
    && (rows != [] ==> rows[0].level == level)
    && Indented(rows) && Closed(rows) && Nested(rows)
  }

  lemma BelowAppend(a: seq<Row>, b: seq<Row>, level: nat)
    requires Below(a, level) && Below(b, level)
    ensures Below(a + b, level)
  {
    var r := a + b;
    forall i | 0 <= i < |r| ensures r[i].level >= level {
      if i < |a| { assert r[i] == a[i]; } else { assert r[i] == b[i - |a|]; }
    }
  }

  lemma DrawnAppend(docs: seq<Document>, a: seq<Row>, b: seq<Row>)
    requires AllDrawn(docs, a) && AllDrawn(docs, b)
    ensures AllDrawn(docs, a + b)
  {
    var r := a + b;
    forall i | 0 <= i < |r| ensures r[i].doc in docs && Drawn(docs, r[i]) {
      if i < |a| { assert r[i] == a[i]; } else { assert r[i] == b[i - |a|]; }
    }
  }

  lemma NestedAppend(a: seq<Row>, b: seq<Row>, level: nat)
    requires Nested(a) && Nested(b)
    requires Below(a, level)
    requires b != [] ==> b[0].level == level
    ensures Nested(a + b)
  {
    var r := a + b;
    forall j, i | 0 <= j < |a| <= i < |r|
      ensures !(r[i].level == r[j].level + 1 && NoShallowerBetween(r, j, i))
    {
      assert r[j] == a[j] && r[|a|] == b[0];
      if i > |a| {
        assert |a| < i;
      }
    }
    forall j, i | 0 <= j < i < |r| && r[i].level == r[j].level + 1 && NoShallowerBetween(r, j, i)
      ensures IsChildOf(r[i].doc, r[j].doc.id)
    {
      if i < |a| {
        forall k | j < k < i ensures a[k].level >= a[i].level {
          assert r[k] == a[k];
        }
        assert NoShallowerBetween(a, j, i);
      } else if |a| <= j {
        forall k | j - |a| < k < i - |a| ensures b[k].level >= b[i - |a|].level {
          assert r[k + |a|] == b[k];
        }
        assert NoShallowerBetween(b, j - |a|, i - |a|);
      }
    }
  }

  lemma BlockAppend(a: seq<Row>, b: seq<Row>, level: nat)
    requires Block(a, level) && Block(b, level)
    ensures Block(a + b, level)
  {
    var r := a + b;
    BelowAppend(a, b, level);
    assert Indented(r) && Closed(r) by {
      forall i, j | 0 <= i && j == i + 1 && j < |r|
        ensures r[j].level <= r[i].level + 1
        ensures r[i].marker != ChevronDown ==> r[j].level <= r[i].level
      {
        if j < |a| {
          assert r[j] == a[j] && r[i] == a[i];
        } else if j == |a| {
          assert r[j] == b[0] && r[i] == a[i];
        } else {
          assert r[j] == b[j - |a|] && r[i] == b[i - |a|];
        }
      }
    }
    NestedAppend(a, b, level);
  }

  /** The rows at `level` show documents of `list`. */
  ghost predicate TopIn(rows: seq<Row>, level: nat, list: seq<Document>) {
    forall i :: 0 <= i < |rows| && rows[i].level == level ==> rows[i].doc in list
  }

  lemma BlockCons(x: Row, below: seq<Row>, kids: seq<Document>, level: nat)
    requires x.level == level
    requires Block(below, level + 1)
    requires x.marker != ChevronDown ==> below == []
    requires TopIn(below, level + 1, kids) && forall c :: c in kids ==> IsChildOf(c, x.doc.id)
    ensures Block([x] + below, level)
  {
    var r := [x] + below;
    forall i | 0 < i < |r| ensures r[i] == below[i - 1] {
    }
    assert Indented(r) && Closed(r) by {
      forall i, j | 0 <= i && j == i + 1 && j < |r|
        ensures r[j].level <= r[i].level + 1
        ensures r[i].marker != ChevronDown ==> r[j].level <= r[i].level
      {
        if i > 0 {
          assert r[i] == below[i - 1] && r[j] == below[j - 1];
        }
      }
    }
    forall j, i | 0 <= j < i < |r| && r[i].level == r[j].level + 1 && NoShallowerBetween(r, j, i)
      ensures IsChildOf(r[i].doc, r[j].doc.id)
    {
      if 0 < j {
        forall k | j - 1 < k < i - 1 ensures below[k].level >= below[i - 1].level {
          assert r[k + 1] == below[k];
        }
        assert NoShallowerBetween(below, j - 1, i - 1);
      }
    }
  }

  /**
   * `<DocumentItem document={d} level={level} expanded={expanded} .../>`:
   * the row of `d`, followed, when `expanded` and `d` has children, by the
   * rows of its children one level deeper, each handed the same `expanded`
   * flag (not its own map entry) and no `active` flag.
   */
  function Item(docs: seq<Document>, d: Document, level: nat, expanded: bool, active: bool, fuel: nat): seq<Row>
    decreases fuel, 0
  {
    if fuel == 0 then []
    else
      var kids := Children(docs, d.id);
      [RowOf(docs, d, level, expanded, active)] +
      (if expanded && |kids| > 0 then Items(docs, kids, level + 1, expanded, fuel - 1) else [])
  }

  /** `children.map(child => <DocumentItem .../>)`, the children's rows one after another. */
  function Items(docs: seq<Document>, list: seq<Document>, level: nat, expanded: bool, fuel: nat): seq<Row>
    decreases fuel, 1, |list|
  {
    if list == [] then []
    else Item(docs, list[0], level, expanded, false, fuel) + Items(docs, list[1..], level, expanded, fuel)
  }

  /**
   * `rootDocuments.map(doc => <DocumentItem level={0} expanded={expanded[doc.id]}
   * active={params.documentId === doc.id} .../>)`
   */
  function RootRows(docs: seq<Document>, roots: seq<Document>, m: map<Id, bool>, route: Option<Id>, fuel: nat): seq<Row> {
    if roots == [] then []
    else
      Item(docs, roots[0], 0, Expanded(m, roots[0].id), route == Some(roots[0].id), fuel) +
      RootRows(docs, roots[1..], m, route, fuel)
  }

  /** The rows start with `row`, and every later row is deeper than it. */
  ghost predicate Headed(rows: seq<Row>, row: Row) {
    rows != [] ==> rows[0] == row && Below(rows[1..], row.level + 1)
  }

  /** One item's rows: its own row, then rows strictly deeper. */
  lemma {:induction false} ItemBelow(docs: seq<Document>, d: Document, level: nat, expanded: bool, active: bool, fuel: nat)
    decreases fuel, 0
    ensures fuel == 0 <==> Item(docs, d, level, expanded, active, fuel) == []
    ensures Headed(Item(docs, d, level, expanded, active, fuel), RowOf(docs, d, level, expanded, active))
  {
    if fuel > 0 {
      var row := RowOf(docs, d, level, expanded, active);
      var kids := Children(docs, d.id);
      if expanded && |kids| > 0 {
        var below := Items(docs, kids, level + 1, expanded, fuel - 1);
        ItemsBelow(docs, kids, level + 1, expanded, fuel - 1);
        assert ([row] + below)[1..] == below;
      } else {
        assert ([row] + [])[1..] == [];
      }
    }
  }

  lemma {:induction false} ItemsBelow(docs: seq<Document>, list: seq<Document>, level: nat, expanded: bool, fuel: nat)
    decreases fuel, 1, |list|
    ensures Below(Items(docs, list, level, expanded, fuel), level)
  {
    if list != [] {
      var first := Item(docs, list[0], level, expanded, false, fuel);
      var rest := Items(docs, list[1..], level, expanded, fuel);
      ItemBelow(docs, list[0], level, expanded, false, fuel);
      ItemsBelow(docs, list[1..], level, expanded, fuel);
      if first != [] {
        assert first == [first[0]] + first[1..];
        BelowAppend([first[0]], first[1..], level);
      }
      BelowAppend(first, rest, level);
    }
  }

  /** The first row of a non-empty list of items is the row of its first document. */
  lemma ItemsFirst(docs: seq<Document>, list: seq<Document>, level: nat, expanded: bool, fuel: nat)
    requires list != [] && fuel > 0
    ensures Items(docs, list, level, expanded, fuel) != []
    ensures Items(docs, list, level, expanded, fuel)[0] == RowOf(docs, list[0], level, expanded, false)
  {
    ItemBelow(docs, list[0], level, expanded, false, fuel);
  }

  /** Every row an item draws is a listed document drawn as `Drawn` says. */
  lemma {:induction false} ItemDrawn(docs: seq<Document>, d: Document, level: nat, expanded: bool, active: bool, fuel: nat)
    requires d in docs
    decreases fuel, 0
    ensures AllDrawn(docs, Item(docs, d, level, expanded, active, fuel))
  {
    if fuel > 0 {
      var row := RowOf(docs, d, level, expanded, active);
      var kids := Children(docs, d.id);
      assert AllDrawn(docs, [row]);
      if expanded && |kids| > 0 {
        ItemsDrawn(docs, kids, level + 1, expanded, fuel - 1);
        DrawnAppend(docs, [row], Items(docs, kids, level + 1, expanded, fuel - 1));
      } else {
        assert [row] + [] == [row];
      }
    }
  }

  lemma {:induction false} ItemsDrawn(docs: seq<Document>, list: seq<Document>, level: nat, expanded: bool, fuel: nat)
    requires forall c :: c in list ==> c in docs
    decreases fuel, 1, |list|
    ensures AllDrawn(docs, Items(docs, list, level, expanded, fuel))
  {
    if list != [] {
      ItemDrawn(docs, list[0], level, expanded, false, fuel);
      ItemsDrawn(docs, list[1..], level, expanded, fuel);
      DrawnAppend(docs, Item(docs, list[0], level, expanded, false, fuel), Items(docs, list[1..], level, expanded, fuel));
    }
  }

  /** One call of the renderer on `d` draws a block: indented, closed and nested. */
  lemma {:induction false} ItemBlock(docs: seq<Document>, d: Document, level: nat, expanded: bool, active: bool, fuel: nat)
    decreases fuel, 0
    ensures Block(Item(docs, d, level, expanded, active, fuel), level)
  {
    if fuel > 0 {
      if expanded && |Children(docs, d.id)| > 0 {
        ItemsBlock(docs, Children(docs, d.id), level + 1, expanded, fuel - 1);
      }
      ItemBlockStep(docs, d, level, expanded, active, fuel);
    }
  }

  lemma ItemBlockStep(docs: seq<Document>, d: Document, level: nat, expanded: bool, active: bool, fuel: nat)
    requires fuel > 0
    requires expanded && |Children(docs, d.id)| > 0 ==>
      var below := Items(docs, Children(docs, d.id), level + 1, expanded, fuel - 1);
      Block(below, level + 1) && TopIn(below, level + 1, Children(docs, d.id))
    ensures Block(Item(docs, d, level, expanded, active, fuel), level)
  {
    ItemStep(docs, d, level, expanded, active, fuel);
    var row := RowOf(docs, d, level, expanded, active);
    var kids := Children(docs, d.id);
    if expanded && |kids| > 0 {
      BlockCons(row, Items(docs, kids, level + 1, expanded, fuel - 1), kids, level);
    } else {
      BlockCons(row, [], [], level);
      assert [row] + [] == [row];
    }
  }

  lemma {:induction false} ItemsBlock(docs: seq<Document>, list: seq<Document>, level: nat, expanded: bool, fuel: nat)
    decreases fuel, 1, |list|
    ensures Block(Items(docs, list, level, expanded, fuel), level)
    ensures TopIn(Items(docs, list, level, expanded, fuel), level, list)
  {
    if list != [] {
      var first := Item(docs, list[0], level, expanded, false, fuel);
      var rest := Items(docs, list[1..], level, expanded, fuel);
      ItemBlock(docs, list[0], level, expanded, false, fuel);
      ItemBelow(docs, list[0], level, expanded, false, fuel);
      ItemsBlock(docs, list[1..], level, expanded, fuel);
      BlockAppend(first, rest, level);
      var rows := first + rest;
      forall i | 0 <= i < |rows| ensures rows[i].level == level ==> rows[i].doc in list {
        if i < |first| {
          if i == 0 {
            assert rows[0] == first[0];
          } else {
            assert rows[i] == first[1..][i - 1];
          }
        } else {
          assert rows[i] == rest[i - |first|];
        }
      }
    }
  }

  /** Rows that are never active and, when `expanded`, never show a collapsed chevron. */
  ghost predicate Quiet(rows: seq<Row>, expanded: bool) {
    forall i :: 0 <= i < |rows| ==> !rows[i].active && (expanded ==> rows[i].marker != ChevronRight)
  }

  lemma QuietAppend(a: seq<Row>, b: seq<Row>, expanded: bool)
    requires Quiet(a, expanded) && Quiet(b, expanded)
    ensures Quiet(a + b, expanded)
  {
    var r := a + b;
    forall i | 0 <= i < |r| ensures !r[i].active && (expanded ==> r[i].marker != ChevronRight) {
      if i < |a| { assert r[i] == a[i]; } else { assert r[i] == b[i - |a|]; }
    }
  }

  /** Below its own row, an item draws only quiet rows: its descendants carry the expanded flag and no active flag. */
  lemma {:induction false} ItemQuiet(docs: seq<Document>, d: Document, level: nat, expanded: bool, active: bool, fuel: nat)
    decreases fuel, 0
    ensures Item(docs, d, level, expanded, active, fuel) != [] ==> Quiet(Item(docs, d, level, expanded, active, fuel)[1..], true)
  {
    if fuel > 0 {
      var row := RowOf(docs, d, level, expanded, active);
      var kids := Children(docs, d.id);
      if expanded && |kids| > 0 {
        var below := Items(docs, kids, level + 1, expanded, fuel - 1);
        ItemsQuiet(docs, kids, level + 1, expanded, fuel - 1);
        assert ([row] + below)[1..] == below;
      } else {
        assert ([row] + [])[1..] == [];
      }
    }
  }

  lemma {:induction false} ItemsQuiet(docs: seq<Document>, list: seq<Document>, level: nat, expanded: bool, fuel: nat)
    decreases fuel, 1, |list|
    ensures Quiet(Items(docs, list, level, expanded, fuel), expanded)
  {
    if list != [] {
      var first := Item(docs, list[0], level, expanded, false, fuel);
      var rest := Items(docs, list[1..], level, expanded, fuel);
      ItemQuiet(docs, list[0], level, expanded, false, fuel);
      ItemBelow(docs, list[0], level, expanded, false, fuel);
      ItemsQuiet(docs, list[1..], level, expanded, fuel);
      if first != [] {
        assert first == [first[0]] + first[1..];
        QuietAppend([first[0]], first[1..], expanded);
      }
      QuietAppend(first, rest, expanded);
    }
  }

  lemma {:induction false} RootRowsBlock(docs: seq<Document>, roots: seq<Document>, m: map<Id, bool>, route: Option<Id>, fuel: nat)
    ensures Block(RootRows(docs, roots, m, route, fuel), 0)
  {
    if roots != [] {
      ItemBlock(docs, roots[0], 0, Expanded(m, roots[0].id), route == Some(roots[0].id), fuel);
      RootRowsBlock(docs, roots[1..], m, route, fuel);
      BlockAppend(Item(docs, roots[0], 0, Expanded(m, roots[0].id), route == Some(roots[0].id), fuel),
        RootRows(docs, roots[1..], m, route, fuel), 0);
    }
  }

  lemma {:induction false} RootRowsDrawn(docs: seq<Document>, roots: seq<Document>, m: map<Id, bool>, route: Option<Id>, fuel: nat)
    requires forall r :: r in roots ==> r in docs
    ensures AllDrawn(docs, RootRows(docs, roots, m, route, fuel))
  {
    if roots != [] {
      ItemDrawn(docs, roots[0], 0, Expanded(m, roots[0].id), route == Some(roots[0].id), fuel);
      RootRowsDrawn(docs, roots[1..], m, route, fuel);
      DrawnAppend(docs, Item(docs, roots[0], 0, Expanded(m, roots[0].id), route == Some(roots[0].id), fuel),
        RootRows(docs, roots[1..], m, route, fuel));
    }
  }

  /** The top-level rows show documents of `roots`, active exactly for the route's id; deeper rows are quiet. */
  ghost predicate Marked(rows: seq<Row>, roots: seq<Document>, route: Option<Id>) {
    && (forall i :: 0 <= i < |rows| && rows[i].level == 0 ==>
          rows[i].doc in roots && (rows[i].active <==> route == Some(rows[i].doc.id)))
    && (forall i :: 0 <= i < |rows| && rows[i].level > 0 ==> !rows[i].active && rows[i].marker != ChevronRight)
  }

  /** The top-level rows are the roots, marked active by the route; deeper rows are quiet. */
  lemma {:induction false} RootRowsMarks(docs: seq<Document>, roots: seq<Document>, m: map<Id, bool>, route: Option<Id>, fuel: nat)
    ensures Marked(RootRows(docs, roots, m, route, fuel), roots, route)
  {
    if roots != [] {
      var first := Item(docs, roots[0], 0, Expanded(m, roots[0].id), route == Some(roots[0].id), fuel);
      var rest := RootRows(docs, roots[1..], m, route, fuel);
      ItemBelow(docs, roots[0], 0, Expanded(m, roots[0].id), route == Some(roots[0].id), fuel);
      ItemQuiet(docs, roots[0], 0, Expanded(m, roots[0].id), route == Some(roots[0].id), fuel);
      RootRowsMarks(docs, roots[1..], m, route, fuel);
      var rows := first + rest;
      forall i | 0 <= i < |rows|
        ensures rows[i].level == 0 ==> rows[i].doc in roots && (rows[i].active <==> route == Some(rows[i].doc.id))
        ensures rows[i].level > 0 ==> !rows[i].active && rows[i].marker != ChevronRight
      {
        if i < |first| {
          if i == 0 {
            assert rows[0] == first[0];
          } else {
            assert rows[i] == first[1..][i - 1];
          }
        } else {
          assert rows[i] == rest[i - |first|];
        }
      }
    }
  }

  /** Each top-level row's chevron follows the expand map's entry for its document. */
  ghost predicate Toggles(docs: seq<Document>, rows: seq<Row>, m: map<Id, bool>) {
    forall i :: 0 <= i < |rows| && rows[i].level == 0 ==>
      rows[i].marker == MarkerFor(docs, rows[i].doc, Expanded(m, rows[i].doc.id))
  }

  lemma {:induction false} RootRowsToggles(docs: seq<Document>, roots: seq<Document>, m: map<Id, bool>, route: Option<Id>, fuel: nat)
    ensures Toggles(docs, RootRows(docs, roots, m, route, fuel), m)
  {
    if roots != [] {
      var first := Item(docs, roots[0], 0, Expanded(m, roots[0].id), route == Some(roots[0].id), fuel);
      var rest := RootRows(docs, roots[1..], m, route, fuel);
      ItemBelow(docs, roots[0], 0, Expanded(m, roots[0].id), route == Some(roots[0].id), fuel);
      RootRowsToggles(docs, roots[1..], m, route, fuel);
      var rows := first + rest;
      forall i | 0 <= i < |rows|
        ensures rows[i].level == 0 ==> rows[i].marker == MarkerFor(docs, rows[i].doc, Expanded(m, rows[i].doc.id))
      {
        if i < |first| {
          if i == 0 {
            assert rows[0] == first[0];
          } else {
            assert rows[i] == first[1..][i - 1];
          }
        } else {
          assert rows[i] == rest[i - |first|];
        }
      }
    }
  }

  /**
   * The rows the sidebar shows for the document list, the expand map and the
   * route's document id.
   */
  function VisibleRows(docs: seq<Document>, m: map<Id, bool>, route: Option<Id>): (rows: seq<Row>)
    // every row is drawn from its own document: padding level*12+12, a spacer iff no children
    ensures forall i :: 0 <= i < |rows| ==> rows[i].doc in docs && Drawn(docs, rows[i])
    // top-level rows are roots, and exactly those whose id is the route's are active
    ensures forall i :: 0 <= i < |rows| && rows[i].level == 0 ==>
      IsRoot(rows[i].doc) && (rows[i].active <==> route == Some(rows[i].doc.id))
    // a top-level row's chevron points down exactly when its entry in the expand map is set
    ensures forall i :: 0 <= i < |rows| && rows[i].level == 0 ==>
      rows[i].marker == MarkerFor(docs, rows[i].doc, Expanded(m, rows[i].doc.id))
    // deeper rows are never active, and never show a collapsed chevron
    ensures forall i :: 0 <= i < |rows| && rows[i].level > 0 ==> !rows[i].active && rows[i].marker != ChevronRight
    ensures rows != [] ==> rows[0].level == 0
    ensures Indented(rows) && Closed(rows) && Nested(rows)
  {
    RootRowsBlock(docs, Roots(docs), m, route, |docs|);
    RootRowsDrawn(docs, Roots(docs), m, route, |docs|);
    RootRowsMarks(docs, Roots(docs), m, route, |docs|);
    RootRowsToggles(docs, Roots(docs), m, route, |docs|);
    RootRows(docs, Roots(docs), m, route, |docs|)
  }

  // ---------------------------------------------------------------------
  // Properties of the rendering
  // ---------------------------------------------------------------------

  /** The documents of the rows at `level`, in order. */
  function LevelDocs(rows: seq<Row>, level: nat): seq<Document> {
    if rows == [] then []
    else (if rows[0].level == level then [rows[0].doc] else []) + LevelDocs(rows[1..], level)
  }

  lemma {:induction false} LevelDocsAppend(a: seq<Row>, b: seq<Row>, level: nat)
    ensures LevelDocs(a + b, level) == LevelDocs(a, level) + LevelDocs(b, level)
  {
    if a == [] {
      assert a + b == b;
    } else {
      var head := if a[0].level == level then [a[0].doc] else [];
      assert (a + b)[0] == a[0];
      assert (a + b)[1..] == a[1..] + b;
      assert LevelDocs(a + b, level) == head + LevelDocs(a[1..] + b, level);
      LevelDocsAppend(a[1..], b, level);
      assert LevelDocs(a, level) == head + LevelDocs(a[1..], level);
      assert head + (LevelDocs(a[1..], level) + LevelDocs(b, level)) == (head + LevelDocs(a[1..], level)) + LevelDocs(b, level);
    }
  }

  lemma {:induction false} LevelDocsNone(rows: seq<Row>, level: nat)
    requires Below(rows, level + 1)
    ensures LevelDocs(rows, level) == []
  {
    if rows != [] {
      LevelDocsNone(rows[1..], level);
    }
  }

  lemma {:induction false} RootRowsTop(docs: seq<Document>, roots: seq<Document>, m: map<Id, bool>, route: Option<Id>, fuel: nat)
    requires fuel > 0
    ensures LevelDocs(RootRows(docs, roots, m, route, fuel), 0) == roots
  {
    if roots != [] {
      var first := Item(docs, roots[0], 0, Expanded(m, roots[0].id), route == Some(roots[0].id), fuel);
      var rest := RootRows(docs, roots[1..], m, route, fuel);
      RootRowsStep(docs, roots, m, route, fuel);
      ItemLevel(docs, roots[0], 0, Expanded(m, roots[0].id), route == Some(roots[0].id), fuel);
      LevelDocsAppend(first, rest, 0);
      RootRowsTop(docs, roots[1..], m, route, fuel);
      assert roots == [roots[0]] + roots[1..];
    }
  }

  /** The root rows, one root at a time. */
  lemma RootRowsStep(docs: seq<Document>, roots: seq<Document>, m: map<Id, bool>, route: Option<Id>, fuel: nat)
    requires roots != []
    ensures RootRows(docs, roots, m, route, fuel) ==
      Item(docs, roots[0], 0, Expanded(m, roots[0].id), route == Some(roots[0].id), fuel) + RootRows(docs, roots[1..], m, route, fuel)
  {
  }

  /** The rows of one item contribute its own document, and nothing else, at the item's level. */
  lemma ItemLevel(docs: seq<Document>, d: Document, level: nat, expanded: bool, active: bool, fuel: nat)
    requires fuel > 0
    ensures LevelDocs(Item(docs, d, level, expanded, active, fuel), level) == [d]
  {
    ItemBelow(docs, d, level, expanded, active, fuel);
    var rows := Item(docs, d, level, expanded, active, fuel);
    assert rows == [rows[0]] + rows[1..];
    LevelDocsNone(rows[1..], level);
    LevelDocsAppend([rows[0]], rows[1..], level);
    assert LevelDocs([rows[0]], level) == [rows[0].doc];
  }

  /** The children's rows, one child at a time. */
  lemma ItemsStep(docs: seq<Document>, list: seq<Document>, level: nat, expanded: bool, fuel: nat)
    requires list != []
    ensures Items(docs, list, level, expanded, fuel) ==
      Item(docs, list[0], level, expanded, false, fuel) + Items(docs, list[1..], level, expanded, fuel)
  {
  }

  /** With fuel left, the rows at the items' own level are the listed documents, each once, in order. */
  lemma {:induction false} ItemsLevel(docs: seq<Document>, list: seq<Document>, level: nat, expanded: bool, fuel: nat)
    requires fuel > 0
    ensures LevelDocs(Items(docs, list, level, expanded, fuel), level) == list
  {
    if list != [] {
      var first := Item(docs, list[0], level, expanded, false, fuel);
      var rest := Items(docs, list[1..], level, expanded, fuel);
      ItemsStep(docs, list, level, expanded, fuel);
      ItemLevel(docs, list[0], level, expanded, false, fuel);
      LevelDocsAppend(first, rest, level);
      ItemsLevel(docs, list[1..], level, expanded, fuel);
      assert list == [list[0]] + list[1..];
    }
  }

  /** The top-level rows are exactly the roots, each once, in list order. */
  lemma VisibleTopLevel(docs: seq<Document>, m: map<Id, bool>, route: Option<Id>)
    ensures LevelDocs(VisibleRows(docs, m, route), 0) == Roots(docs)
  {
    if |docs| == 0 {
      assert Roots(docs) == [];
    } else {
      RootRowsTop(docs, Roots(docs), m, route, |docs|);
    }
  }

  lemma {:induction false} RootRowsAtRoots(docs: seq<Document>, roots: seq<Document>, m: map<Id, bool>, m': map<Id, bool>, route: Option<Id>, fuel: nat)
    requires forall r :: r in roots ==> r in docs
    requires forall r :: r in roots ==> Expanded(m, r.id) == Expanded(m', r.id)
    ensures RootRows(docs, roots, m, route, fuel) == RootRows(docs, roots, m', route, fuel)
  {
    if roots != [] {
      RootRowsAtRoots(docs, roots[1..], m, m', route, fuel);
    }
  }

  /**
   * Descendants inherit their root's flag: the rows depend on the expand map
   * only through the entries of the roots' ids.
   */
  lemma OnlyRootEntriesMatter(docs: seq<Document>, m: map<Id, bool>, m': map<Id, bool>, route: Option<Id>)
    requires forall r :: r in Roots(docs) ==> Expanded(m, r.id) == Expanded(m', r.id)
    ensures VisibleRows(docs, m, route) == VisibleRows(docs, m', route)
  {
    RootRowsAtRoots(docs, Roots(docs), m, m', route, |docs|);
  }

  /** One collapsed top-level row per root, in order. */
  ghost predicate Flat(docs: seq<Document>, rows: seq<Row>, roots: seq<Document>, route: Option<Id>) {
    |rows| == |roots| &&
    forall i :: 0 <= i < |rows| ==> rows[i] == RowOf(docs, roots[i], 0, false, route == Some(roots[i].id))
  }

  lemma {:induction false} RootRowsCollapsed(docs: seq<Document>, roots: seq<Document>, m: map<Id, bool>, route: Option<Id>, fuel: nat)
    requires forall r :: r in roots ==> r in docs && !Expanded(m, r.id)
    requires fuel > 0
    ensures Flat(docs, RootRows(docs, roots, m, route, fuel), roots, route)
  {
    if roots != [] {
      RootRowsCollapsed(docs, roots[1..], m, route, fuel);
    }
  }

  /** With every root collapsed, the sidebar shows one row per root and nothing else. */
  lemma AllCollapsed(docs: seq<Document>, m: map<Id, bool>, route: Option<Id>)
    requires forall r :: r in Roots(docs) ==> !Expanded(m, r.id)
    ensures Flat(docs, VisibleRows(docs, m, route), Roots(docs), route)
  {
    if |docs| > 0 {
      RootRowsCollapsed(docs, Roots(docs), m, route, |docs|);
    }
  }

  // ---------------------------------------------------------------------
  // Chains of ancestors, and why |docs| is enough fuel
  // ---------------------------------------------------------------------

  /** A root followed by a child of it, a child of that child, and so on. */
  ghost predicate Chain(docs: seq<Document>, path: seq<Document>) {
    && |path| > 0
    && (forall i :: 0 <= i < |path| ==> path[i] in docs)
    && IsRoot(path[0])
    && (forall i :: 0 < i < |path| ==> IsChildOf(path[i], path[i - 1].id))
  }

  lemma {:induction false} ChainNoRepeat(docs: seq<Document>, path: seq<Document>, i: nat, j: nat)
    requires UniqueIds(docs) && NonEmptyIds(docs) && Chain(docs, path)
    requires i < j < |path|
    ensures path[i] != path[j]
    decreases i
  {
    var k :| 0 <= k < |docs| && docs[k] == path[j - 1];
    assert path[j - 1].id != "";
    assert !IsRoot(path[j]);
    if i > 0 {
      ChainNoRepeat(docs, path, i - 1, j - 1);
      SameIdSameDocument(docs, path[i - 1], path[j - 1]);
      assert path[i].parentDocumentId == Some(path[i - 1].id);
      assert path[j].parentDocumentId == Some(path[j - 1].id);
    }
  }

  /**
   * With unique non-empty ids an ancestor chain never revisits a document,
   * so it is no longer than the list.
   */
  lemma ChainBound(docs: seq<Document>, path: seq<Document>)
    requires UniqueIds(docs) && NonEmptyIds(docs) && Chain(docs, path)
    ensures |path| <= |docs|
  {
    forall i, j | 0 <= i < j < |path| ensures path[i] != path[j] {
      ChainNoRepeat(docs, path, i, j);
    }
    DistinctBounded(path, docs);
  }

  lemma ChainExtend(docs: seq<Document>, path: seq<Document>, c: Document)
    requires Chain(docs, path)
    requires c in docs && IsChildOf(c, path[|path| - 1].id)
    ensures Chain(docs, path + [c])
  {
  }

  /** One step of the renderer, as an equation. */
  lemma ItemStep(docs: seq<Document>, d: Document, level: nat, expanded: bool, active: bool, fuel: nat)
    requires fuel > 0
    ensures Item(docs, d, level, expanded, active, fuel) ==
      [RowOf(docs, d, level, expanded, active)] +
      (if expanded && |Children(docs, d.id)| > 0 then Items(docs, Children(docs, d.id), level + 1, expanded, fuel - 1) else [])
  {
  }

  /** Two fuels that render the children alike render the whole item alike. */
  lemma ItemSameBelow(docs: seq<Document>, d: Document, level: nat, expanded: bool, active: bool, f: nat, g: nat)
    requires d in docs && f > 0 && g > 0
    requires expanded && |Children(docs, d.id)| > 0 ==>
      Items(docs, Children(docs, d.id), level + 1, expanded, f - 1) == Items(docs, Children(docs, d.id), level + 1, expanded, g - 1)
    ensures Item(docs, d, level, expanded, active, f) == Item(docs, d, level, expanded, active, g)
  {
    ItemStep(docs, d, level, expanded, active, f);
    ItemStep(docs, d, level, expanded, active, g);
  }

  lemma {:induction false} ItemFuel(docs: seq<Document>, path: seq<Document>, level: nat, expanded: bool, active: bool, f: nat, g: nat)
    requires UniqueIds(docs) && NonEmptyIds(docs) && Chain(docs, path)
    requires f >= |docs| - |path| + 1 && g >= f
    ensures Item(docs, path[|path| - 1], level, expanded, active, f) == Item(docs, path[|path| - 1], level, expanded, active, g)
    decreases f, 0
  {
    ChainBound(docs, path);
    var d := path[|path| - 1];
    var kids := Children(docs, d.id);
    if expanded && |kids| > 0 {
      ItemsFuel(docs, path, kids, level + 1, expanded, f - 1, g - 1);
    }
    ItemSameBelow(docs, d, level, expanded, active, f, g);
  }

  lemma {:induction false} ItemsFuel(docs: seq<Document>, path: seq<Document>, list: seq<Document>, level: nat, expanded: bool, f: nat, g: nat)
    requires UniqueIds(docs) && NonEmptyIds(docs) && Chain(docs, path)
    requires forall c :: c in list ==> c in docs && IsChildOf(c, path[|path| - 1].id)
    requires f >= |docs| - |path| && g >= f
    ensures Items(docs, list, level, expanded, f) == Items(docs, list, level, expanded, g)
    decreases f, 1, |list|
  {
    if list != [] {
      ChainExtend(docs, path, list[0]);
      ItemFuel(docs, path + [list[0]], level, expanded, false, f, g);
      ItemsFuel(docs, path, list[1..], level, expanded, f, g);
    }
  }

  lemma {:induction false} RootRowsFuel(docs: seq<Document>, roots: seq<Document>, m: map<Id, bool>, route: Option<Id>, f: nat, g: nat)
    requires UniqueIds(docs) && NonEmptyIds(docs)
    requires forall r :: r in roots ==> r in docs && IsRoot(r)
    requires f >= |docs| && g >= f
    ensures RootRows(docs, roots, m, route, f) == RootRows(docs, roots, m, route, g)
  {
    if roots != [] {
      assert Chain(docs, [roots[0]]);
      ItemFuel(docs, [roots[0]], 0, Expanded(m, roots[0].id), route == Some(roots[0].id), f, g);
      RootRowsFuel(docs, roots[1..], m, route, f, g);
    }
  }

  /**
   * With unique non-empty ids, rendering with any fuel of at least |docs|
   * gives the rows `VisibleRows` gives: the bound never cuts the tree short.
   */
  lemma FuelSuffices(docs: seq<Document>, m: map<Id, bool>, route: Option<Id>, fuel: nat)
    requires UniqueIds(docs) && NonEmptyIds(docs)
    requires fuel >= |docs|
    ensures RootRows(docs, Roots(docs), m, route, fuel) == VisibleRows(docs, m, route)
  {
    RootRowsFuel(docs, Roots(docs), m, route, |docs|, fuel);
  }

  /**
   * A row whose chevron points down is followed at once by the row of its
   * first child, one level deeper.
   */
  ghost predicate Unfolded(docs: seq<Document>, rows: seq<Row>) {
    && (forall i :: 0 <= i < |rows| && rows[i].marker == ChevronDown ==>
          i + 1 < |rows| && |Children(docs, rows[i].doc.id)| > 0)
    && (forall i, j :: 0 <= i && j == i + 1 && j < |rows| && rows[i].marker == ChevronDown && |Children(docs, rows[i].doc.id)| > 0 ==>
          rows[j] == RowOf(docs, Children(docs, rows[i].doc.id)[0], rows[i].level + 1, true, false))
  }

  lemma UnfoldedAppend(docs: seq<Document>, a: seq<Row>, b: seq<Row>)
    requires Unfolded(docs, a) && Unfolded(docs, b)
    ensures Unfolded(docs, a + b)
  {
    var r := a + b;
    forall i | 0 <= i < |r| && r[i].marker == ChevronDown
      ensures i + 1 < |r| && |Children(docs, r[i].doc.id)| > 0
    {
      if i < |a| { assert r[i] == a[i]; } else { assert r[i] == b[i - |a|]; }
    }
    forall i, j | 0 <= i && j == i + 1 && j < |r| && r[i].marker == ChevronDown && |Children(docs, r[i].doc.id)| > 0
      ensures r[j] == RowOf(docs, Children(docs, r[i].doc.id)[0], r[i].level + 1, true, false)
    {
      if i < |a| {
        assert r[i] == a[i];
        assert j < |a| by { assert a[i].marker == ChevronDown; }
        assert r[j] == a[j];
      } else {
        assert r[i] == b[i - |a|] && r[j] == b[j - |a|];
      }
    }
  }

  /** An item is unfolded when its children's rows are, and there is fuel left to draw them. */
  lemma ItemUnfoldedStep(docs: seq<Document>, d: Document, level: nat, expanded: bool, active: bool, f: nat)
    requires d in docs && f > 0
    requires expanded && |Children(docs, d.id)| > 0 ==>
      f > 1 && Unfolded(docs, Items(docs, Children(docs, d.id), level + 1, expanded, f - 1))
    ensures Unfolded(docs, Item(docs, d, level, expanded, active, f))
  {
    ItemStep(docs, d, level, expanded, active, f);
    var row := RowOf(docs, d, level, expanded, active);
    var kids := Children(docs, d.id);
    if expanded && |kids| > 0 {
      var below := Items(docs, kids, level + 1, expanded, f - 1);
      ItemsFirst(docs, kids, level + 1, expanded, f - 1);
      UnfoldedHead(docs, row, below);
    } else {
      assert Item(docs, d, level, expanded, active, f) == [row];
    }
  }

  /** A chevron-down row on top of unfolded rows starting with its first child's row. */
  lemma UnfoldedHead(docs: seq<Document>, row: Row, below: seq<Row>)
    requires Unfolded(docs, below)
    requires row.marker == ChevronDown ==>
      |Children(docs, row.doc.id)| > 0 && below != [] &&
      below[0] == RowOf(docs, Children(docs, row.doc.id)[0], row.level + 1, true, false)
    ensures Unfolded(docs, [row] + below)
  {
    var r := [row] + below;
    forall i | 0 < i < |r| ensures r[i] == below[i - 1] {
    }
    forall i, j | 0 <= i && j == i + 1 && j < |r| && r[i].marker == ChevronDown && |Children(docs, r[i].doc.id)| > 0
      ensures r[j] == RowOf(docs, Children(docs, r[i].doc.id)[0], r[i].level + 1, true, false)
    {
      if i > 0 {
        assert r[i] == below[i - 1] && r[j] == below[j - 1];
      }
    }
  }

  lemma {:induction false} ItemUnfolded(docs: seq<Document>, path: seq<Document>, level: nat, expanded: bool, active: bool, f: nat)
    requires UniqueIds(docs) && NonEmptyIds(docs) && Chain(docs, path)
    requires f >= |docs| - |path| + 1
    ensures Unfolded(docs, Item(docs, path[|path| - 1], level, expanded, active, f))
    decreases f, 0
  {
    ChainBound(docs, path);
    var d := path[|path| - 1];
    var kids := Children(docs, d.id);
    if expanded && |kids| > 0 {
      ChainExtend(docs, path, kids[0]);
      ChainBound(docs, path + [kids[0]]);
      ItemsUnfolded(docs, path, kids, level + 1, expanded, f - 1);
    }
    ItemUnfoldedStep(docs, d, level, expanded, active, f);
  }

  lemma {:induction false} ItemsUnfolded(docs: seq<Document>, path: seq<Document>, list: seq<Document>, level: nat, expanded: bool, f: nat)
    requires UniqueIds(docs) && NonEmptyIds(docs) && Chain(docs, path)
    requires forall c :: c in list ==> c in docs && IsChildOf(c, path[|path| - 1].id)
    requires f >= |docs| - |path|
    ensures Unfolded(docs, Items(docs, list, level, expanded, f))
    decreases f, 1, |list|
  {
    if list != [] {
      ChainExtend(docs, path, list[0]);
      ItemUnfolded(docs, path + [list[0]], level, expanded, false, f);
      ItemsUnfolded(docs, path, list[1..], level, expanded, f);
      UnfoldedAppend(docs, Item(docs, list[0], level, expanded, false, f), Items(docs, list[1..], level, expanded, f));
    }
  }

  lemma {:induction false} RootRowsUnfolded(docs: seq<Document>, roots: seq<Document>, m: map<Id, bool>, route: Option<Id>, f: nat)
    requires UniqueIds(docs) && NonEmptyIds(docs)
    requires forall r :: r in roots ==> r in docs && IsRoot(r)
    requires f >= |docs|
    ensures Unfolded(docs, RootRows(docs, roots, m, route, f))
  {
    if roots != [] {
      assert Chain(docs, [roots[0]]);
      var first := Item(docs, roots[0], 0, Expanded(m, roots[0].id), route == Some(roots[0].id), f);
      ItemUnfolded(docs, [roots[0]], 0, Expanded(m, roots[0].id), route == Some(roots[0].id), f);
      RootRowsUnfolded(docs, roots[1..], m, route, f);
      UnfoldedAppend(docs, first, RootRows(docs, roots[1..], m, route, f));
    }
  }

  // ---------------------------------------------------------------------
  // Subtrees: every child of an unfolded row is drawn
  // ---------------------------------------------------------------------

  /**
   * Where the rows drawn below row `i` end, scanning from `j`: the first row
   * at `i`'s level or shallower, or the end of the list.
   */
  function SubtreeEnd(rows: seq<Row>, i: nat, j: nat): (e: nat)
    requires i < j <= |rows|
    ensures j <= e <= |rows|
    ensures forall k :: j <= k < e ==> rows[k].level > rows[i].level
    ensures e == |rows| || rows[e].level <= rows[i].level
    decreases |rows| - j
  {
    if j == |rows| || rows[j].level <= rows[i].level then j else SubtreeEnd(rows, i, j + 1)
  }

  /** The rows drawn below row `i`: the maximal run of deeper rows right after it. */
  function Subtree(rows: seq<Row>, i: nat): seq<Row>
    requires i < |rows|
  {
    rows[i + 1..SubtreeEnd(rows, i, i + 1)]
  }

  lemma {:induction false} SubtreeEndLeft(a: seq<Row>, b: seq<Row>, i: nat, j: nat)
    requires i < j <= |a|
    requires b != [] ==> b[0].level <= a[i].level
    ensures SubtreeEnd(a + b, i, j) == SubtreeEnd(a, i, j)
    decreases |a| - j
  {
    var r := a + b;
    if j < |a| {
      assert r[j] == a[j] && r[i] == a[i];
      if a[j].level > a[i].level {
        SubtreeEndLeft(a, b, i, j + 1);
      }
    } else if b != [] {
      assert r[j] == b[0] && r[i] == a[i];
    }
  }

  lemma {:induction false} SubtreeEndRight(a: seq<Row>, b: seq<Row>, i: nat, j: nat)
    requires |a| <= i < j <= |a| + |b|
    ensures SubtreeEnd(a + b, i, j) == |a| + SubtreeEnd(b, i - |a|, j - |a|)
    decreases |a| + |b| - j
  {
    var r := a + b;
    if j < |r| {
      assert r[j] == b[j - |a|] && r[i] == b[i - |a|];
      if b[j - |a|].level > b[i - |a|].level {
        SubtreeEndRight(a, b, i, j + 1);
      }
    }
  }

  /** Every row with a down chevron has exactly its children, in order, one level deeper in its subtree. */
  ghost predicate Shows(docs: seq<Document>, rows: seq<Row>) {
    forall i :: 0 <= i < |rows| && rows[i].marker == ChevronDown ==>
      LevelDocs(Subtree(rows, i), rows[i].level + 1) == Children(docs, rows[i].doc.id)
  }

  /** A row of `a` keeps its subtree when rows at its level or shallower follow. */
  lemma SubtreeLeft(a: seq<Row>, b: seq<Row>, i: nat)
    requires i < |a|
    requires b != [] ==> b[0].level <= a[i].level
    ensures Subtree(a + b, i) == Subtree(a, i)
  {
    SubtreeEndLeft(a, b, i, i + 1);
    var e := SubtreeEnd(a, i, i + 1);
    assert (a + b)[i + 1..e] == a[i + 1..e];
  }

  /** A row of `b` keeps its subtree whatever precedes it. */
  lemma SubtreeRight(a: seq<Row>, b: seq<Row>, i: nat)
    requires |a| <= i < |a| + |b|
    ensures Subtree(a + b, i) == Subtree(b, i - |a|)
  {
    SubtreeEndRight(a, b, i, i + 1);
    var e := SubtreeEnd(b, i - |a|, i - |a| + 1);
    assert (a + b)[i + 1..|a| + e] == b[i - |a| + 1..e];
  }

  lemma ShowsAppend(docs: seq<Document>, a: seq<Row>, b: seq<Row>, level: nat)
    requires Shows(docs, a) && Shows(docs, b)
    requires Below(a, level)
    requires b != [] ==> b[0].level == level
    ensures Shows(docs, a + b)
  {
    var r := a + b;
    forall i | 0 <= i < |r| && r[i].marker == ChevronDown
      ensures LevelDocs(Subtree(r, i), r[i].level + 1) == Children(docs, r[i].doc.id)
    {
      if i < |a| {
        assert r[i] == a[i];
        SubtreeLeft(a, b, i);
      } else {
        assert r[i] == b[i - |a|];
        SubtreeRight(a, b, i);
      }
    }
  }

  /** Below a row followed by deeper rows only, the subtree is all of them. */
  lemma SubtreeHead(row: Row, below: seq<Row>)
    requires Below(below, row.level + 1)
    ensures Subtree([row] + below, 0) == below
  {
    var r := [row] + below;
    assert forall k :: 1 <= k < |r| ==> r[k] == below[k - 1];
  }

  lemma ShowsCons(docs: seq<Document>, row: Row, below: seq<Row>)
    requires Shows(docs, below) && Below(below, row.level + 1)
    requires row.marker == ChevronDown ==> LevelDocs(below, row.level + 1) == Children(docs, row.doc.id)
    ensures Shows(docs, [row] + below)
  {
    var r := [row] + below;
    forall i | 0 <= i < |r| && r[i].marker == ChevronDown
      ensures LevelDocs(Subtree(r, i), r[i].level + 1) == Children(docs, r[i].doc.id)
    {
      if i == 0 {
        SubtreeHead(row, below);
      } else {
        assert r[i] == below[i - 1];
        SubtreeRight([row], below, i);
      }
    }
  }

  /** An item shows all its children when its children's rows do, and there is fuel left to draw them. */
  lemma ItemShowsStep(docs: seq<Document>, d: Document, level: nat, expanded: bool, active: bool, f: nat)
    requires f > 0
    requires expanded && |Children(docs, d.id)| > 0 ==>
      f > 1 && Shows(docs, Items(docs, Children(docs, d.id), level + 1, expanded, f - 1))
    ensures Shows(docs, Item(docs, d, level, expanded, active, f))
  {
    ItemStep(docs, d, level, expanded, active, f);
    var row := RowOf(docs, d, level, expanded, active);
    var kids := Children(docs, d.id);
    if expanded && |kids| > 0 {
      var below := Items(docs, kids, level + 1, expanded, f - 1);
      ItemsBelow(docs, kids, level + 1, expanded, f - 1);
      ItemsLevel(docs, kids, level + 1, expanded, f - 1);
      ShowsCons(docs, row, below);
    } else {
      ShowsCons(docs, row, []);
      assert [row] + [] == [row];
    }
  }

  lemma {:induction false} ItemShows(docs: seq<Document>, path: seq<Document>, level: nat, expanded: bool, active: bool, f: nat)
    requires UniqueIds(docs) && NonEmptyIds(docs) && Chain(docs, path)
    requires f >= |docs| - |path| + 1
    ensures Shows(docs, Item(docs, path[|path| - 1], level, expanded, active, f))
    decreases f, 0
  {
    ChainBound(docs, path);
    var d := path[|path| - 1];
    var kids := Children(docs, d.id);
    if expanded && |kids| > 0 {
      ChainExtend(docs, path, kids[0]);
      ChainBound(docs, path + [kids[0]]);
      ItemsShows(docs, path, kids, level + 1, expanded, f - 1);
    }
    ItemShowsStep(docs, d, level, expanded, active, f);
  }

  lemma {:induction false} ItemsShows(docs: seq<Document>, path: seq<Document>, list: seq<Document>, level: nat, expanded: bool, f: nat)
    requires UniqueIds(docs) && NonEmptyIds(docs) && Chain(docs, path)
    requires forall c :: c in list ==> c in docs && IsChildOf(c, path[|path| - 1].id)
    requires f >= |docs| - |path|
    ensures Shows(docs, Items(docs, list, level, expanded, f))
    decreases f, 1, |list|
  {
    if list != [] {
      var first := Item(docs, list[0], level, expanded, false, f);
      var rest := Items(docs, list[1..], level, expanded, f);
      ChainExtend(docs, path, list[0]);
      ItemShows(docs, path + [list[0]], level, expanded, false, f);
      ItemsShows(docs, path, list[1..], level, expanded, f);
      ItemBlock(docs, list[0], level, expanded, false, f);
      ItemsBlock(docs, list[1..], level, expanded, f);
      ShowsAppend(docs, first, rest, level);
    }
  }

  lemma {:induction false} RootRowsShows(docs: seq<Document>, roots: seq<Document>, m: map<Id, bool>, route: Option<Id>, f: nat)
    requires UniqueIds(docs) && NonEmptyIds(docs)
    requires forall r :: r in roots ==> r in docs && IsRoot(r)
    requires f >= |docs|
    ensures Shows(docs, RootRows(docs, roots, m, route, f))
  {
    if roots != [] {
      assert Chain(docs, [roots[0]]);
      var first := Item(docs, roots[0], 0, Expanded(m, roots[0].id), route == Some(roots[0].id), f);
      var rest := RootRows(docs, roots[1..], m, route, f);
      ItemShows(docs, [roots[0]], 0, Expanded(m, roots[0].id), route == Some(roots[0].id), f);
      RootRowsShows(docs, roots[1..], m, route, f);
      RootRowsBlock(docs, roots[1..], m, route, f);
      ShowsAppend(docs, first, rest, 0);
    }
  }

  /** A row without a down chevron has nothing drawn below it. */
  lemma SubtreeClosed(rows: seq<Row>, i: nat)
    requires Closed(rows) && i < |rows|
    requires rows[i].marker != ChevronDown
    ensures Subtree(rows, i) == []
  {
    if i + 1 < |rows| {
      assert rows[i + 1].level <= rows[i].level;
    }
  }

  /**
   * What the expand map shows: a top-level row whose entry is not set has
   * nothing below it; a top-level row whose entry is set, and every deeper
   * row, has exactly its children, in list order, one level deeper below it.
   */
  ghost predicate Unfolds(docs: seq<Document>, rows: seq<Row>, m: map<Id, bool>) {
    && (forall i :: 0 <= i < |rows| && rows[i].level == 0 && !Expanded(m, rows[i].doc.id) ==>
          Subtree(rows, i) == [])
    && (forall i :: 0 <= i < |rows| && (rows[i].level > 0 || Expanded(m, rows[i].doc.id)) ==>
          LevelDocs(Subtree(rows, i), rows[i].level + 1) == Children(docs, rows[i].doc.id))
  }

  /**
   * Rows that are closed, show every unfolded row's children, and carry
   * the chevrons the renderer draws unfold exactly as the expand map says.
   */
  lemma UnfoldsOf(docs: seq<Document>, rows: seq<Row>, m: map<Id, bool>)
    requires Closed(rows) && Shows(docs, rows) && Toggles(docs, rows, m)
    requires forall i :: 0 <= i < |rows| ==> (rows[i].marker == Spacer <==> Children(docs, rows[i].doc.id) == [])
    requires forall i :: 0 <= i < |rows| && rows[i].level > 0 ==> rows[i].marker != ChevronRight
    ensures Unfolds(docs, rows, m)
  {
    forall i | 0 <= i < |rows| && rows[i].level == 0 && !Expanded(m, rows[i].doc.id)
      ensures Subtree(rows, i) == []
    {
      SubtreeClosed(rows, i);
    }
    forall i | 0 <= i < |rows| && (rows[i].level > 0 || Expanded(m, rows[i].doc.id))
      ensures LevelDocs(Subtree(rows, i), rows[i].level + 1) == Children(docs, rows[i].doc.id)
    {
      if rows[i].marker != ChevronDown {
        SubtreeClosed(rows, i);
      }
    }
  }

  /**
   * With unique non-empty ids, every row with a down chevron is followed at
   * once by its first child, and below it the sidebar draws exactly its
   * children, in list order. Since descendants inherit their root's flag, an
   * expanded root shows its whole subtree and a collapsed root shows only
   * its own row.
   */
  lemma ExpandedShowsChildren(docs: seq<Document>, m: map<Id, bool>, route: Option<Id>)
    requires UniqueIds(docs) && NonEmptyIds(docs)
    ensures Unfolded(docs, VisibleRows(docs, m, route))
    ensures Shows(docs, VisibleRows(docs, m, route))
    ensures Unfolds(docs, VisibleRows(docs, m, route), m)
  {
    RootRowsUnfolded(docs, Roots(docs), m, route, |docs|);
    RootRowsShows(docs, Roots(docs), m, route, |docs|);
    var rows := VisibleRows(docs, m, route);
    assert forall i :: 0 <= i < |rows| ==> Drawn(docs, rows[i]);
    UnfoldsOf(docs, rows, m);
  }
}
