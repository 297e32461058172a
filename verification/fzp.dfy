/** What the two part-descriptor (FZP) extractors share: the image-path rule, attribute
    defaults and the property map. */
module Fzp {
  import opened Wrappers
  import opened Seqs
  import opened Xml

  /** Where breadboard images of the core parts are served from. */
  const ImagePrefix := "/parts/svg/core/"

  /** An attribute's value, or "" when it is absent. */
  function AttrOrEmpty(e: Element, name: string): string {
    Attr(e, name).GetOr("")
  }

  /** The image path named by a breadboard `layers` element: the prefix followed by its `image`
      attribute when that is present and non-empty, otherwise "". */
  function ImagePathOf(layers: Option<Element>): (r: string)
    ensures r == "" <==> layers.None? || AttrOrEmpty(layers.value, "image") == ""
    ensures r != "" ==> r == ImagePrefix + AttrOrEmpty(layers.value, "image")
  {
    if layers.Some? && AttrOrEmpty(layers.value, "image") != "" then ImagePrefix + AttrOrEmpty(layers.value, "image")
    else ""
  }

  /** A `property` element's entry: recorded only when both its name and its value are non-empty. */
  function PropertyEntry(name: Option<string>, value: Option<string>): (r: Option<(string, string)>)
    ensures r.Some? <==> name.Some? && name.value != "" && value.Some? && value.value != ""
    ensures r.Some? ==> r.value == (name.value, value.value)
  {
    if name.Some? && name.value != "" && value.Some? && value.value != "" then Some((name.value, value.value)) else None
  }

  /** The property map: entries assigned in document order, a later duplicate name overwriting an
      earlier one. */
  function PropertyMap(entries: seq<(string, string)>): (m: map<string, string>)
    ensures forall k :: k in m <==> exists i :: 0 <= i < |entries| && entries[i].0 == k
  {
    LastWins(entries)
  }
}
