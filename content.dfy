/** The data the factsheet parser works on: positioned spans and blocks coming from the PDF
  * layout library, normalised tables, and the typed content items of a page. */
module Content {
  import opened Wrappers

  /** A bounding box `[x0, y0, x1, y1]`; coordinates are modelled as integers. */
  datatype BBox = BBox(x0: int, y0: int, x1: int, y1: int)

  /** `[0, 0, 0, 0]`, used for a block without a bbox and for chart placeholders. */
  const ZERO_BOX: BBox := BBox(0, 0, 0, 0)

  /** A span: its text (a missing text is the empty string) and its font size, if given. */
  datatype Span = Span(text: string, size: Option<real>)

  /** A text block: its bbox, if given, and its lines of spans. */
  datatype Block = Block(bbox: Option<BBox>, lines: seq<seq<Span>>)

  /** A normalised table. */
  datatype Table = Table(headers: seq<string>, rows: seq<seq<string>>)

  /** The `type` of a content item. */
  datatype ItemType = HeadingItem | ParagraphItem | TableItem | ChartItem

  /** `ContentItem`; `note` stands for the `meta` dictionary `{"note": ...}`. */
  datatype ContentItem = ContentItem(
    kind: ItemType,
    section: Option<string>,
    subSection: Option<string>,
    text: Option<string>,
    table: Option<Table>,
    bbox: Option<BBox>,
    note: Option<string>)

  /** `PageOut`: its 1-based number and its content, which the content merger replaces. */
  class Page {
    const pageNumber: nat
    var content: seq<ContentItem>

    constructor (pageNumber: nat, content: seq<ContentItem>)
      ensures this.pageNumber == pageNumber && this.content == content
    {
      this.pageNumber := pageNumber;
      this.content := content;
    }
  }
}
