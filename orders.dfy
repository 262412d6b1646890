/**
 * A row of the plugin's orders table, as the handlers read it. Text columns are strings;
 * `extras` is the value maybe_unserialize() gives back: a list of service names, or a
 * plain scalar string when the column does not hold a serialized array.
 */
module Orders {

  datatype Extras = ExtrasList(items: seq<string>) | ExtrasScalar(raw: string)
  {
    /** `!empty($extras) && is_array($extras)`. */
    predicate IsNonEmptyList()
    {
      this.ExtrasList? && |this.items| > 0
    }
  }

  datatype Order = Order(
    id: int,
    userId: int,
    orderNumber: string,
    bookTitle: string,
    bookSize: string,
    paperType: string,
    paperWeight: string,
    printType: string,
    bindingType: string,
    coverPaperWeight: string,
    laminationType: string,
    extras: Extras,
    status: string,
    archived: bool,
    createdAt: int)

  /** The lamination option that means "no lamination". */
  const NoLamination: string := "بدون سلفون"

  /** `needle` occurs somewhere in `haystack`: SQL `LIKE '%needle%'`, and JavaScript's `includes`. */
  predicate Contains(haystack: string, needle: string)
    decreases |haystack|
  {
    needle <= haystack || (|haystack| > 0 && Contains(haystack[1..], needle))
  }
}
