/**
 * The parts of a board export the exporter reads (`name`, `lists`, `cards` and each
 * card's `attachments`), and output paths as sequences of directory segments.
 */
module TrelloData {
  import opened Wrappers

  /** A filesystem path as its segments, outermost first. */
  type Path = seq<string>

  /** Session cookies, by name. */
  type CookieJar = map<string, string>

  datatype Attachment = Attachment(url: string, name: string)

  /**
   * A card; `attachments` is `None` when the export has no such field or holds
   * `null` there, both of which `process_card_attachments` treats as no attachments.
   */
  datatype Card = Card(name: string, idList: string, attachments: Option<seq<Attachment>>)

  datatype TrelloList = TrelloList(id: string, name: string)

  datatype Board = Board(name: string, lists: seq<TrelloList>, cards: seq<Card>)

  /**
   * pathlib's `base / name` for a name without separators: the name becomes one more
   * segment, except that joining the empty name leaves `base` as it is.
   */
  function Join(base: Path, name: string): (p: Path)
    ensures |p| == if name == "" then |base| else |base| + 1
    ensures p[..|base|] == base
    ensures name != "" ==> p[|base|] == name
  {
    if name == "" then base else base + [name]
  }

  /** `card.get('attachments', [])`. */
  function AttachmentsOf(card: Card): seq<Attachment>
  {
    card.attachments.GetOr([])
  }
}
