/** Extraction followed by bulk formatting. */
module Pipeline {
  import opened Wrappers
  import opened Text
  import opened Records
  import opened PriceParser
  import opened Extraction
  import opened ExtractProperties
  import opened Bulk

  /** A snapshot the extraction builds can be handed to both bulk writers. */
  lemma ExtractCovers(pdvs: seq<RawPdv>)
    requires Extract(pdvs).Success?
    ensures Covers(Extract(pdvs).value.order, Extract(pdvs).value.stations)
  {
    ExtractValid(pdvs);
  }

  /** A station reaches the index exactly when both coordinates of its last open
      record parse: a station with one or no coordinate stays in the snapshot but
      gets no action. */
  lemma IndexedIffBothCoordinates(pdvs: seq<RawPdv>, j: nat, x: string, index: string, docType: string)
    requires Extract(pdvs).Success?
    requires j < |pdvs| && OpenWith(pdvs[j], x)
    requires forall k :: j < k < |pdvs| ==> !OpenWith(pdvs[k], x)
    ensures Covers(Extract(pdvs).value.order, Extract(pdvs).value.stations)
    ensures var s := Extract(pdvs).value; var actions := BulkActions(index, docType, s.order, s.stations);
      HasActionFor(actions, x) <==> BothCoordinatesParse(pdvs[j])
  {
    ExtractCovers(pdvs);
    ExtractValid(pdvs);
    var s := Extract(pdvs).value;
    ExtractFields(pdvs, j, x);
    assert x in s.order;
    var pdv := pdvs[j];
    LocalisationShape(pdv);
    assert HasFullLocation(s.stations[x]) <==> BothCoordinatesParse(pdv);
    BulkMembership(index, docType, s.order, s.stations, x);
  }
}
