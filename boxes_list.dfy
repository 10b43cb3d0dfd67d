/** The admin box list (admin/src/component/mainComponents/BoxesList.jsx): the dimensions
    line and the search filter. Its price summary and stock total are the product list's
    (`ProductListPage.VariantSummary`, `ProductListPage.TotalStock`). */
module BoxesList {
  import opened Wrappers
  import opened Seqs
  import opened Text
  import opened VariantModel
  import opened ProductListPage

  /** What `getDimensions` shows; `Sides` is rendered as 'w × h × d cm'. */
  datatype DimensionsText =
    | NoDimensions
    | NotSpecified
    | Sides(width: real, height: real, depth: real)

  /** `dims.width || 0`: unset counts as 0. */
  function Side(x: Option<real>): real { x.GetOr(0.0) }

  /** `firstVariant.boxDetails?.dimensions`. */
  function DimensionsOf(v: Variant): Option<Dimensions> {
    if v.boxDetails.Some? then v.boxDetails.value.dimensions else None
  }

  /** `getDimensions`. */
  function GetDimensions(variants: Option<seq<Variant>>): (r: DimensionsText)
    ensures r == NoDimensions <==> variants.None? || variants.value == []
    ensures r == NotSpecified <==>
              variants.Some? && variants.value != []
              && (DimensionsOf(variants.value[0]).None?
                  || var d := DimensionsOf(variants.value[0]).value;
                     Side(d.width) == 0.0 && Side(d.height) == 0.0 && Side(d.depth) == 0.0)
    ensures r.Sides? ==>
              var d := DimensionsOf(variants.value[0]).value;
              r == Sides(Side(d.width), Side(d.height), Side(d.depth))
  {
    if variants.None? || variants.value == [] then NoDimensions
    else
      match DimensionsOf(variants.value[0])
      case None => NotSpecified
      case Some(d) =>
        if Side(d.width) == 0.0 && Side(d.height) == 0.0 && Side(d.depth) == 0.0 then NotSpecified
        else Sides(Side(d.width), Side(d.height), Side(d.depth))
  }

  /** Only the first variant is consulted. */
  lemma OnlyFirstVariantCounts(first: Variant, rest: seq<Variant>)
    ensures GetDimensions(Some([first] + rest)) == GetDimensions(Some([first]))
  {
    assert ([first] + rest)[0] == first;
  }

  /** An unset side is shown as 0, as if it had been set to 0. */
  lemma MissingSideShownAsZero(v: Variant, d: Dimensions)
    requires v.boxDetails.Some? && v.boxDetails.value.dimensions == Some(d)
    ensures var w := v.(boxDetails := Some(v.boxDetails.value.(dimensions := Some(d.(width := None)))));
            var z := v.(boxDetails := Some(v.boxDetails.value.(dimensions := Some(d.(width := Some(0.0))))));
            GetDimensions(Some([w])) == GetDimensions(Some([z]))
  {
  }

  predicate BoxMatches(term: string, p: Listing) {
    MentionsIn(Some(p.name), term) || MentionsIn(p.description, term)
  }

  /** The search effect of the box list: name and description only; keywords play no part. */
  function SearchBoxes(boxes: seq<Listing>, term: string): (r: seq<Listing>)
    ensures IsSubsequence(r, boxes)
    ensures forall p :: p in r <==> p in boxes && BoxMatches(term, p)
    ensures forall p :: multiset(r)[p] == if BoxMatches(term, p) then multiset(boxes)[p] else 0
  {
    FilterIsSubsequence(boxes, p => BoxMatches(term, p));
    FilterMultiset(boxes, p => BoxMatches(term, p));
    Filter(boxes, p => BoxMatches(term, p))
  }

  /** Every box the box search shows, the product search would show as well. */
  lemma BoxSearchWithinProductSearch(boxes: seq<Listing>, term: string, p: Listing)
    requires p in SearchBoxes(boxes, term)
    ensures p in SearchProducts(boxes, term)
  {
  }

  /** An empty search shows every box, in the order fetched. */
  lemma EmptyBoxSearchKeepsAll(boxes: seq<Listing>)
    ensures SearchBoxes(boxes, "") == boxes
  {
    forall i | 0 <= i < |boxes| ensures BoxMatches("", boxes[i]) {
      ContainsEmpty(Lower(boxes[i].name));
    }
    FilterAll(boxes, p => BoxMatches("", p));
  }
}
