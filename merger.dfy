/**
 * `merge_tables_into_pages` (parse_factsheet.py:289-303): the tables of a page join its
 * content, which is then ordered by item type and, within a type, by vertical position.
 */
module Merger {
  import opened Wrappers
  import opened Content
  import opened StableSort

  /** The `y` of an item without a bbox, `1e9`. */
  const SENTINEL_Y: int := 1_000_000_000

  /** `{"heading": 0, "paragraph": 1, "table": 2, "chart": 3}`. */
  function TypeOrder(kind: ItemType): int {
    match kind
    case HeadingItem => 0
    case ParagraphItem => 1
    case TableItem => 2
    case ChartItem => 3
  }

  /** `sort_key`: the type order, then the top edge of the bbox, or `1e9` without one. */
  function ContentKey(ci: ContentItem): Key {
    (TypeOrder(ci.kind), if ci.bbox.Some? then ci.bbox.value.y0 else SENTINEL_Y)
  }

  /** `ContentItem(type="table", table=t, text=None, bbox=None)`. */
  function TableItemFor(t: Table): (r: ContentItem)
    ensures r.kind == TableItem && r.table == Some(t) && r.text.None? && r.bbox.None?
    ensures ContentKey(r) == (2, SENTINEL_Y)
  {
    ContentItem(TableItem, None, None, None, Some(t), None, None)
  }

  function TableItems(tables: seq<Table>): (r: seq<ContentItem>)
    ensures |r| == |tables|
    ensures forall k :: 0 <= k < |r| ==> r[k] == TableItemFor(tables[k])
  {
    seq(|tables|, k requires 0 <= k < |tables| => TableItemFor(tables[k]))
  }

  lemma TableItemsSnoc(tables: seq<Table>, j: nat)
    requires j < |tables|
    ensures TableItems(tables[..j + 1]) == TableItems(tables[..j]) + [TableItemFor(tables[j])]
  {
  }

  /** The tables of page `i`: `tables_by_page[i]` when the page has an entry, none otherwise. */
  function TablesFor(byPage: map<nat, seq<Table>>, i: nat): seq<Table> {
    if i in byPage then byPage[i] else []
  }

  /** The content of a page after the merge. */
  function MergedContent(content: seq<ContentItem>, tables: seq<Table>): seq<ContentItem> {
    SortBy(content + TableItems(tables), ContentKey)
  }

  /** The merged content is ordered by key, holds exactly the old items and one item per table,
    * and keeps the original order of items that share a key (Python's `sorted` is stable). */
  lemma MergedContentOrdered(content: seq<ContentItem>, tables: seq<Table>)
    ensures SortedBy(MergedContent(content, tables), ContentKey)
    ensures multiset(MergedContent(content, tables)) == multiset(content) + multiset(TableItems(tables))
    ensures forall k :: WithKey(MergedContent(content, tables), ContentKey, k) == WithKey(content + TableItems(tables), ContentKey, k)
  {
    SortBySortedPermutation(content + TableItems(tables), ContentKey);
    forall k ensures WithKey(MergedContent(content, tables), ContentKey, k) == WithKey(content + TableItems(tables), ContentKey, k) {
      SortByStable(content + TableItems(tables), ContentKey, k);
    }
  }

  /** Headings come first, then paragraphs, then tables, then charts. */
  lemma MergedContentByType(content: seq<ContentItem>, tables: seq<Table>)
    ensures var r := MergedContent(content, tables);
      forall i, j :: 0 <= i < j < |r| ==> TypeOrder(r[i].kind) <= TypeOrder(r[j].kind)
  {
    var r := MergedContent(content, tables);
    SortBySortedPermutation(content + TableItems(tables), ContentKey);
    forall i, j | 0 <= i < j < |r| ensures TypeOrder(r[i].kind) <= TypeOrder(r[j].kind) {
      assert KeyLe(ContentKey(r[i]), ContentKey(r[j]));
    }
  }

  /** Tables have no bbox, so they follow every paragraph and the tables of a page keep the
    * order in which they were found. */
  lemma MergedTablesInOrder(content: seq<ContentItem>, tables: seq<Table>)
    requires forall k :: 0 <= k < |content| ==> content[k].kind != TableItem
    ensures WithKey(MergedContent(content, tables), ContentKey, (2, SENTINEL_Y)) == TableItems(tables)
  {
    MergedContentOrdered(content, tables);
    WithKeyAppend(content, TableItems(tables), ContentKey, (2, SENTINEL_Y));
    WithKeyNone(content, ContentKey, (2, SENTINEL_Y));
    WithKeyAll(TableItems(tables), ContentKey, (2, SENTINEL_Y));
  }

  lemma {:induction false} WithKeyAppend<T>(a: seq<T>, b: seq<T>, key: T -> Key, k: Key)
    ensures WithKey(a + b, key, k) == WithKey(a, key, k) + WithKey(b, key, k)
    decreases |a|
  {
    if a != [] {
      WithKeyAppend(a[1..], b, key, k);
      assert (a + b)[1..] == a[1..] + b;
    } else {
      assert a + b == b;
    }
  }

  lemma {:induction false} WithKeyNone(content: seq<ContentItem>, key: ContentItem -> Key, k: Key)
    requires key == ContentKey && k == (2, SENTINEL_Y)
    requires forall j :: 0 <= j < |content| ==> content[j].kind != TableItem
    ensures WithKey(content, key, k) == []
    decreases |content|
  {
    if content != [] {
      WithKeyNone(content[1..], key, k);
    }
  }

  lemma {:induction false} WithKeyAll<T>(s: seq<T>, key: T -> Key, k: Key)
    requires forall j :: 0 <= j < |s| ==> key(s[j]) == k
    ensures WithKey(s, key, k) == s
    decreases |s|
  {
    if s != [] {
      WithKeyAll(s[1..], key, k);
      assert [s[0]] + s[1..] == s;
    }
  }

  /** The inner loop: `page.content.append(ContentItem(type="table", ...))` per table. */
  method AppendTables(page: Page, tables: seq<Table>)
    modifies page
    ensures page.content == old(page.content) + TableItems(tables)
  {
    ghost var content0 := page.content;
    for j := 0 to |tables|
      invariant page.content == content0 + TableItems(tables[..j])
    {
      TableItemsSnoc(tables, j);
      page.content := page.content + [TableItemFor(tables[j])];
    }
    assert tables[..|tables|] == tables;
  }

  /** `page.content = sorted(page.content, key=sort_key)`. */
  method SortContent(page: Page)
    modifies page
    ensures page.content == SortBy(old(page.content), ContentKey)
  {
    page.content := SortBy(page.content, ContentKey);
  }

  /** `merge_tables_into_pages`: page `i` (0-based) receives the tables stored under `i`, and
    * its content is re-ordered; no other object changes. */
  method MergeTablesIntoPages(pages: seq<Page>, byPage: map<nat, seq<Table>>)
    requires forall i, j :: 0 <= i < j < |pages| ==> pages[i] != pages[j]
    modifies set p | p in pages
    ensures forall i :: 0 <= i < |pages| ==>
      pages[i].content == MergedContent(old(pages[i].content), TablesFor(byPage, i))
  {
    for i := 0 to |pages|
      invariant forall j :: 0 <= j < i ==>
        pages[j].content == MergedContent(old(pages[j].content), TablesFor(byPage, j))
      invariant forall j :: i <= j < |pages| ==> pages[j].content == old(pages[j].content)
    {
      var page := pages[i];
      if i in byPage {
        AppendTables(page, byPage[i]);
      } else {
        assert page.content == page.content + TableItems([]);
      }
      SortContent(page);
    }
  }
}
