/** Worked examples on concrete feed records: a two-fuel price list, a station's
    coordinates, and a small feed with a closed station, a complete one and one
    whose longitude does not parse. */
module Scenarios {
  import opened Wrappers
  import opened Text
  import opened Records
  import opened PriceParser
  import opened Extraction
  import opened Bulk

  /** Prices and coordinates in the feed are integers, scaled by 1000 and 100000. */
  lemma Parse154900()
    ensures ParseNumber("154900") == Some(154900.0)
  {
    assert Decimal(1) == "1";
    assert Decimal(15) == "15";
    assert Decimal(154) == "154";
    assert Decimal(1549) == "1549";
    assert Decimal(15490) == "15490";
    assert Decimal(154900) == "154900";
    ParseDecimal(154900);
  }

  lemma Parse139500()
    ensures ParseNumber("139500") == Some(139500.0)
  {
    assert Decimal(1) == "1";
    assert Decimal(13) == "13";
    assert Decimal(139) == "139";
    assert Decimal(1395) == "1395";
    assert Decimal(13950) == "13950";
    assert Decimal(139500) == "139500";
    ParseDecimal(139500);
  }

  lemma Parse4857900()
    ensures ParseNumber("4857900") == Some(4857900.0)
  {
    assert Decimal(4) == "4";
    assert Decimal(48) == "48";
    assert Decimal(485) == "485";
    assert Decimal(4857) == "4857";
    assert Decimal(48579) == "48579";
    assert Decimal(485790) == "485790";
    assert Decimal(4857900) == "4857900";
    ParseDecimal(4857900);
  }

  lemma Parse230500()
    ensures ParseNumber("230500") == Some(230500.0)
  {
    assert Decimal(2) == "2";
    assert Decimal(23) == "23";
    assert Decimal(230) == "230";
    assert Decimal(2305) == "2305";
    assert Decimal(23050) == "23050";
    assert Decimal(230500) == "230500";
    ParseDecimal(230500);
  }

  lemma Parse4885000()
    ensures ParseNumber("4885000") == Some(4885000.0)
  {
    assert Decimal(4) == "4";
    assert Decimal(48) == "48";
    assert Decimal(488) == "488";
    assert Decimal(4885) == "4885";
    assert Decimal(48850) == "48850";
    assert Decimal(488500) == "488500";
    assert Decimal(4885000) == "4885000";
    ParseDecimal(4885000);
  }

  /** A decimal comma is not a number to `float`. */
  lemma ParseComma()
    ensures ParseNumber("2,35") == None
  {
    assert !IsNumeralChar(',');
    assert "2,35"[1] == ',';
  }

  const Sp98Entry: Attributes := map["@nom" := "SP98", "@valeur" := "154900"]
  const GazoleEntry: Attributes := map["@nom" := "Gazole", "@valeur" := "139500"]

  /** One list entry gives its fuel name and its price in euros. */
  lemma Sp98Price()
    ensures EntryPrice(Sp98Entry) == Success(("SP98", 154.9))
  {
    Parse154900();
  }

  lemma GazolePrice()
    ensures EntryPrice(GazoleEntry) == Success(("Gazole", 139.5))
  {
    Parse139500();
  }

  /** A list of one fuel gives that fuel's price. */
  lemma OneFuelPrices()
    ensures ListPrices([Sp98Entry]) == Success(map["SP98" := 154.9])
  {
    Sp98Price();
    assert [Sp98Entry][..0] == [];
  }

  /** A list of two fuels gives both prices in euros. */
  lemma TwoFuelPrices()
    ensures CleanPrices(Many([Sp98Entry, GazoleEntry])) == Success(map["SP98" := 154.9, "Gazole" := 139.5])
  {
    OneFuelPrices();
    GazolePrice();
    ListPricesSnoc([Sp98Entry], GazoleEntry);
    assert [Sp98Entry] + [GazoleEntry] == [Sp98Entry, GazoleEntry];
  }

  /** A price list with one more entry that succeeds adds that entry's price. */
  lemma ListPricesSnoc(entries: seq<Attributes>, e: Attributes)
    requires ListPrices(entries).Success? && EntryPrice(e).Success?
    ensures ListPrices(entries + [e]) == Success(ListPrices(entries).value[EntryPrice(e).value.0 := EntryPrice(e).value.1])
  {
    assert (entries + [e])[..|entries|] == entries;
  }

  const Closed: RawPdv := RawPdv(Some("1000001"), Some("01000"), Some("4620114"), Some("519791"),
                                 Some("596 AVENUE DE TREVOUX"), Some("SAINT-DENIS"), Some(map["@saufjour" := ""]),
                                 true, None)
  const Complete: RawPdv := RawPdv(Some("67000001"), Some("67000"), Some("4857900"), Some("230500"),
                                   Some("RUE DU RHIN"), Some("Strasbourg"), Some(map["@saufjour" := "Dimanche"]),
                                   false, Some(Many([Sp98Entry])))
  const BadLongitude: RawPdv := RawPdv(Some("75000001"), Some("75001"), Some("4885000"), Some("2,35"),
                                       Some("QUAI"), Some("Paris"), Some(map["@saufjour" := ""]),
                                       false, None)

  /** The coordinates of the complete station, in degrees. */
  lemma CompleteCoordinates()
    ensures Coordinates(Complete) == Success(map["lat" := 48.579, "lon" := 2.305])
  {
    Parse4857900();
    Parse230500();
  }

  /** The closed station leaves the snapshot empty. */
  lemma ClosedFirst()
    ensures Extract([Closed]) == Success(EmptySnapshot)
  {
    assert [Closed][..0] == [];
  }

  /** Extracting one more record is one more step. */
  lemma ExtractSnoc(pdvs: seq<RawPdv>, pdv: RawPdv)
    requires Extract(pdvs).Success?
    ensures Extract(pdvs + [pdv]) == Step(Extract(pdvs).value, pdv)
  {
    assert (pdvs + [pdv])[..|pdvs|] == pdvs;
  }

  /** An open record with a new id is appended to the iteration order. */
  lemma StepNew(s: Snapshot, pdv: RawPdv)
    requires pdv.id.Some? && !pdv.fermeture && pdv.id.value !in s.stations
    requires Normalize(pdv, None).Success?
    ensures Step(s, pdv) == Success(Snapshot(s.order + [pdv.id.value], s.stations[pdv.id.value := Normalize(pdv, None).value]))
  {
  }

  /** The complete station lists one fuel, in a list of one entry. */
  lemma CompletePrix()
    ensures NewPrix(Complete) == Success(Some(map["SP98" := 154.9]))
  {
    OneFuelPrices();
  }

  /** Every field the complete record is read for is there. */
  lemma CompleteNormalizes()
    ensures Normalize(Complete, None).Success?
    ensures |Normalize(Complete, None).value.localisation| == 2
  {
    CompletePrix();
    CompleteCoordinates();
    BothKeys(48.579, 2.305);
  }

  /** A `localisation` with both coordinates has two keys. */
  lemma BothKeys(lat: real, lon: real)
    ensures |map["lat" := lat, "lon" := lon]| == 2
  {
    assert map["lat" := lat, "lon" := lon].Keys == {"lat", "lon"};
  }

  /** The complete station is stored with both coordinates. */
  lemma CompleteStep(s: Snapshot)
    requires s == EmptySnapshot
    ensures Step(s, Complete).Success?
    ensures var t := Step(s, Complete).value;
      && t.order == ["67000001"] && t.stations.Keys == {"67000001"}
      && |t.stations["67000001"].localisation| == 2
  {
    CompleteNormalizes();
    StepNew(s, Complete);
  }

  lemma CompleteSecond()
    ensures Extract([Closed, Complete]).Success?
    ensures var s := Extract([Closed, Complete]).value;
      && s.order == ["67000001"] && s.stations.Keys == {"67000001"}
      && |s.stations["67000001"].localisation| == 2
  {
    ClosedFirst();
    ExtractSnoc([Closed], Complete);
    assert [Closed] + [Complete] == [Closed, Complete];
    CompleteStep(EmptySnapshot);
  }

  /** The station with an unreadable longitude is stored with its latitude alone. */
  lemma BadLongitudeStep(s: Snapshot)
    requires s.order == ["67000001"] && s.stations.Keys == {"67000001"}
    requires |s.stations["67000001"].localisation| == 2
    ensures Step(s, BadLongitude).Success?
    ensures var t := Step(s, BadLongitude).value;
      && t.order == ["67000001", "75000001"]
      && "67000001" in t.stations && "75000001" in t.stations
      && |t.stations["67000001"].localisation| == 2
      && |t.stations["75000001"].localisation| == 1
  {
    BadLongitudeNormalizes();
    StepNew(s, BadLongitude);
    var t := Step(s, BadLongitude).value;
    assert t.stations["75000001"] == Normalize(BadLongitude, None).value;
    assert t.stations["67000001"] == s.stations["67000001"];
    assert t.order == ["67000001"] + ["75000001"];
  }

  /** A longitude with a decimal comma leaves the latitude alone in `localisation`. */
  lemma BadLongitudeCoordinates()
    ensures Coordinates(BadLongitude) == Success(map["lat" := 48.85])
  {
    Parse4885000();
    ParseComma();
  }

  /** The record is still stored: the bad longitude is skipped, not fatal. */
  lemma BadLongitudeNormalizes()
    ensures Normalize(BadLongitude, None).Success?
    ensures |Normalize(BadLongitude, None).value.localisation| == 1
  {
    BadLongitudeCoordinates();
    assert NewPrix(BadLongitude) == Success(None);
  }

  lemma BadLongitudeThird()
    ensures Extract([Closed, Complete, BadLongitude]).Success?
    ensures var s := Extract([Closed, Complete, BadLongitude]).value;
      && s.order == ["67000001", "75000001"]
      && "67000001" in s.stations && "75000001" in s.stations
      && |s.stations["67000001"].localisation| == 2
      && |s.stations["75000001"].localisation| == 1
  {
    CompleteSecond();
    ExtractSnoc([Closed, Complete], BadLongitude);
    assert [Closed, Complete] + [BadLongitude] == [Closed, Complete, BadLongitude];
    BadLongitudeStep(Extract([Closed, Complete]).value);
  }

  /** Of two stations, only the one with both coordinates gets an action. */
  lemma OneAction(s: Snapshot)
    requires s.order == ["67000001", "75000001"]
    requires "67000001" in s.stations && "75000001" in s.stations
    requires |s.stations["67000001"].localisation| == 2
    requires |s.stations["75000001"].localisation| == 1
    ensures Covers(s.order, s.stations)
    ensures |BulkActions("carburants", "pdv", s.order, s.stations)| == 1
    ensures BulkActions("carburants", "pdv", s.order, s.stations)[0].id == "67000001"
  {
    assert s.order[..1] == ["67000001"] && ["67000001"][..0] == [];
  }

  /** The closed station is dropped, the station with an unreadable longitude is kept
      with its latitude alone, and only the complete station is sent to the index. */
  lemma SmallFeed()
    ensures Extract([Closed, Complete, BadLongitude]).Success?
    ensures var s := Extract([Closed, Complete, BadLongitude]).value;
      && s.order == ["67000001", "75000001"]
      && Covers(s.order, s.stations)
      && |BulkActions("carburants", "pdv", s.order, s.stations)| == 1
      && BulkActions("carburants", "pdv", s.order, s.stations)[0].id == "67000001"
  {
    BadLongitudeThird();
    OneAction(Extract([Closed, Complete, BadLongitude]).value);
  }
}
