/**
 * The artwork records of the table and the mapping from the items that the
 * remote catalog returns to those records.
 */
module Records {

  datatype Option<T> = None | Some(value: T)

  /** One row of the table. Only `id` is used for selection; the rest is payload. */
  datatype Artwork = Artwork(
    id: int,
    title: string,
    placeOfOrigin: string,
    artistDisplay: string,
    inscriptions: string,
    dateStart: int,
    dateEnd: int)

  /**
   * One element of the `data` array of a catalog response. Its `inscriptions`
   * may be missing or null (`None`), or a string, possibly empty.
   */
  datatype Item = Item(
    id: int,
    title: string,
    placeOfOrigin: string,
    artistDisplay: string,
    inscriptions: Option<string>,
    dateStart: int,
    dateEnd: int)

  /**
   * How one page request settles, as the handler sees it:
   * - `Loaded`: a body with the page's items in server order and `pagination.total`;
   * - `MissingTotal`: a body whose items map but that has no `pagination`, so
   *   reading the total throws after the page has already been stored;
   * - `Failed`: a transport error, a bad status, or a body whose `data` cannot
   *   be mapped, so the handler throws before storing anything.
   */
  datatype Response =
    | Loaded(items: seq<Item>, total: nat)
    | MissingTotal(items: seq<Item>)
    | Failed

  /** An artwork seen as a catalog item whose inscriptions are present. */
  function AsItem(a: Artwork): Item {
    Item(a.id, a.title, a.placeOfOrigin, a.artistDisplay, Some(a.inscriptions), a.dateStart, a.dateEnd)
  }

  /**
   * The record built for one item: every field is copied, and a missing or
   * falsy `inscriptions` becomes the empty string. In JavaScript the only
   * falsy string is "", so `Some("")` and `None` both give "".
   */
  function ToArtwork(item: Item): (a: Artwork)
    ensures AsItem(a) == if item.inscriptions.None? then item.(inscriptions := Some("")) else item
  {
    Artwork(
      item.id,
      item.title,
      item.placeOfOrigin,
      item.artistDisplay,
      match item.inscriptions
      case None => ""
      case Some(s) => s,
      item.dateStart,
      item.dateEnd)
  }

  /** Mapping a record back to an item and forward again gives the record itself. */
  lemma ToArtworkAsItem(a: Artwork)
    ensures ToArtwork(AsItem(a)) == a
  {
  }

  /** The records of a page: one per item, in server order. */
  function ToArtworks(items: seq<Item>): (rows: seq<Artwork>)
    ensures |rows| == |items|
    ensures forall i :: 0 <= i < |items| ==> rows[i] == ToArtwork(items[i])
  {
    if items == [] then [] else [ToArtwork(items[0])] + ToArtworks(items[1..])
  }
}
