/** The part library's search (PartLibrary.jsx): a free-text filter and a family facet over the
    catalog, and the list of families offered as facet buttons. */
module Catalog {
  import opened Wrappers
  import opened Seqs
  import opened Text
  import opened Parts

  /** The facet value that filters nothing. */
  const AllFamilies := "all"

  /** The lower-cased term occurs in the lower-cased title, description or one of the tags. */
  predicate MatchesText(p: Part, loweredTerm: string)
    ensures loweredTerm == "" ==> MatchesText(p, loweredTerm)
    ensures MatchesText(p, loweredTerm) ==>
      || |loweredTerm| <= |p.title| || |loweredTerm| <= |p.description|
      || exists i :: 0 <= i < |p.tags| && |loweredTerm| <= |p.tags[i]|
  {
    || Contains(ToLower(p.title), loweredTerm)
    || Contains(ToLower(p.description), loweredTerm)
    || exists i :: 0 <= i < |p.tags| && Contains(ToLower(p.tags[i]), loweredTerm)
  }

  /** `properties.family` exists and equals the facet ignoring case. */
  predicate MatchesFamily(p: Part, family: string)
    ensures MatchesFamily(p, family) ==> FamilyKey in p.properties
    ensures FamilyKey in p.properties && p.properties[FamilyKey] == family ==> MatchesFamily(p, family)
  {
    FamilyKey in p.properties && ToLower(p.properties[FamilyKey]) == ToLower(family)
  }

  /** Whether the library lists a part: a term that trims to nothing filters nothing, and any
      other term is matched as typed (lower-cased but not trimmed); the facet "all" filters
      nothing. */
  predicate Listed(p: Part, term: string, family: string)
    ensures IsBlank(term) && family == AllFamilies ==> Listed(p, term, family)
    ensures Listed(p, term, family) && !IsBlank(term) ==> MatchesText(p, ToLower(term))
    ensures Listed(p, term, family) && family != AllFamilies ==> MatchesFamily(p, family)
  {
    TrimEmptyIffBlank(term);
    && (Trim(term) == "" || MatchesText(p, ToLower(term)))
    && (family == AllFamilies || MatchesFamily(p, family))
  }

  function TextFilter(term: string): Part -> bool {
    (p: Part) => MatchesText(p, ToLower(term))
  }

  function FamilyFilter(family: string): Part -> bool {
    (p: Part) => MatchesFamily(p, family)
  }

  function ListedFilter(term: string, family: string): Part -> bool {
    (p: Part) => Listed(p, term, family)
  }

  /** The filter effect: text filter first, then the family filter. */
  function Search(parts: seq<Part>, term: string, family: string): (r: seq<Part>)
    ensures forall p :: p in r <==> p in parts && Listed(p, term, family)
    ensures IsSubseq(r, parts)
  {
    var byText := if Trim(term) != "" then Filter(parts, TextFilter(term)) else parts;
    var byFamily := if family != AllFamilies then Filter(byText, FamilyFilter(family)) else byText;
    SearchIsOneFilter(parts, term, family);
    FilterIsSubseq(parts, ListedFilter(term, family));
    byFamily
  }

  /** The two stages together are one order-preserving filter by `Listed`. */
  lemma SearchIsOneFilter(parts: seq<Part>, term: string, family: string)
    ensures
      var byText := if Trim(term) != "" then Filter(parts, TextFilter(term)) else parts;
      var byFamily := if family != AllFamilies then Filter(byText, FamilyFilter(family)) else byText;
      byFamily == Filter(parts, ListedFilter(term, family))
  {
    var keep := ListedFilter(term, family);
    var text := TextFilter(term);
    var fam := FamilyFilter(family);
    if Trim(term) != "" && family != AllFamilies {
      FilterFilter(parts, text, fam, keep);
    } else if Trim(term) != "" {
      FilterExtensional(parts, text, keep);
    } else if family != AllFamilies {
      FilterExtensional(parts, fam, keep);
    } else {
      FilterKeepsAll(parts, keep);
    }
  }

  /** With a blank term and the "all" facet, the whole catalog is listed, in order. */
  lemma BlankSearchListsAll(parts: seq<Part>, term: string)
    requires IsBlank(term)
    ensures Search(parts, term, AllFamilies) == parts
  {
    TrimEmptyIffBlank(term);
  }

  /** The facet compares ignoring case: facets that lower-case alike list the same parts. */
  lemma FamilyIgnoresCase(parts: seq<Part>, term: string, f: string, g: string)
    requires f != AllFamilies && g != AllFamilies && ToLower(f) == ToLower(g)
    ensures Search(parts, term, f) == Search(parts, term, g)
  {
    SearchIsOneFilter(parts, term, f);
    SearchIsOneFilter(parts, term, g);
    FilterExtensional(parts, ListedFilter(term, f), ListedFilter(term, g));
  }

  /** A part without a `family` property is never listed under a specific facet. */
  lemma NoFamilyNotListed(p: Part, term: string, family: string)
    requires family != AllFamilies && FamilyKey !in p.properties
    ensures !Listed(p, term, family)
  {
  }

  /** The part's `family` value when it is present and non-empty (`filter(Boolean)`). */
  function FamilyOf(p: Part): Option<string> {
    if FamilyKey in p.properties && p.properties[FamilyKey] != "" then Some(p.properties[FamilyKey]) else None
  }

  /** `parts.map(part => part.properties.family).filter(Boolean)`. */
  function FamilyValues(parts: seq<Part>): seq<string> {
    Collect(parts, FamilyOf)
  }

  /** The facet buttons: "all", then each distinct non-empty family once, in the order of the
      part that first carries it. */
  function Families(parts: seq<Part>): (r: seq<string>)
    ensures |r| >= 1 && r[0] == AllFamilies
    ensures forall f :: f in r[1..] <==> exists i :: 0 <= i < |parts| && FamilyOf(parts[i]) == Some(f)
    ensures Distinct(r[1..])
    ensures forall i, j :: 1 <= i < j < |r| ==>
      FirstIndex(FamilyValues(parts), r[i]) < FirstIndex(FamilyValues(parts), r[j])
  {
    var values := FamilyValues(parts);
    InsertionOrderSpec(values);
    var r := [AllFamilies] + InsertionOrder(values);
    assert r[1..] == InsertionOrder(values);
    r
  }
}
