/**
 * The annotation record the reader builds for each XML child, reduced to
 * the fields the conversion reads, and the child as the merge loop sees it.
 */
module Records {
  import opened Wrappers

  /** A key of the annotations and pending-text dictionaries: an id, or Python's `None`. */
  type Key = Option<int>

  /**
   * One annotation. `kind` is the record's `type`. Geometry is in percent of
   * the video, times are in seconds, colours are six hexadecimal digits and
   * `bgAlpha` is the background's transparency in percent
   * (100 minus the XML's `bgAlpha` fraction times 100).
   */
  datatype Annotation = Annotation(
    id: Key,
    author: Option<string>,
    style: Option<string>,
    kind: Option<string>,
    text: Option<string>,
    start: Option<real>,
    end: Option<real>,
    x: Option<real>,
    y: Option<real>,
    w: Option<real>,
    h: Option<real>,
    sx: Option<real>,
    sy: Option<real>,
    fgColor: Option<string>,
    bgColor: Option<string>,
    bgAlpha: Option<real>,
    highlightFontColor: Option<string>,
    textSize: Option<real>,
    url: Option<string>)

  /**
   * An XML child after attribute extraction: its annotation record, the id
   * named by its segment's `spaceRelative` attribute, and its `log_data`
   * attribute (empty when absent).
   */
  datatype Child = Child(annotation: Annotation, spaceRelative: Key, logData: string)

  /** Python truthiness of an optional string: present and non-empty. */
  predicate Truthy(s: Option<string>)
  {
    s.Some? && s.value != ""
  }

  /** Python's `a or b` on optional strings: `a` when it is truthy, `b` otherwise. */
  function Or(a: Option<string>, b: Option<string>): Option<string>
  {
    if Truthy(a) then a else b
  }
}
