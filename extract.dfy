/** `_extract_pdv_data`: the raw `pdv` elements of the feed to the snapshot, a
    dictionary from station id to normalised station. */
module Extraction {
  import opened Wrappers
  import opened Text
  import opened Records
  import opened PriceParser

  /** The `localisation` dictionary of a record. The latitude is set when it parses;
      the longitude is looked up only then, and set when it parses too. A text that
      does not parse is skipped (`except ValueError: pass`); a missing attribute
      raises `KeyError`, which nothing catches. */
  function Coordinates(pdv: RawPdv): (r: Result<map<string, real>, Error>)
    // only a missing attribute aborts; a text that does not parse never does
    ensures r.Success? <==> pdv.latitude.Some? && (ParseNumber(pdv.latitude.value).Some? ==> pdv.longitude.Some?)
  {
    if pdv.latitude.None? then Failure(KeyError("@latitude"))
    else match ParseNumber(pdv.latitude.value)
      case None => Success(map[])
      case Some(lat) =>
        if pdv.longitude.None? then Failure(KeyError("@longitude"))
        else match ParseNumber(pdv.longitude.value)
          case None => Success(map["lat" := lat / 100000.0])
          case Some(lon) => Success(map["lat" := lat / 100000.0, "lon" := lon / 100000.0])
  }

  /** The shape of `localisation`: no key, "lat" alone, or both; "lat" exactly when
      the latitude parses, "lon" exactly when the longitude parses too. */
  lemma LocalisationShape(pdv: RawPdv)
    requires Coordinates(pdv).Success?
    ensures var loc := Coordinates(pdv).value;
      && (loc.Keys == {} || loc.Keys == {"lat"} || loc.Keys == {"lat", "lon"})
      && ("lat" in loc <==> ParseNumber(pdv.latitude.value).Some?)
      && ("lat" in loc ==> loc["lat"] == ParseNumber(pdv.latitude.value).value / 100000.0)
      && ("lon" in loc <==> "lat" in loc && ParseNumber(pdv.longitude.value).Some?)
      && ("lon" in loc ==> loc["lon"] == ParseNumber(pdv.longitude.value).value / 100000.0)
      && (|loc| == 2 <==> BothCoordinatesParse(pdv))
  {
  }

  /** Both coordinate attributes are there and both parse. */
  predicate BothCoordinatesParse(pdv: RawPdv) {
    && pdv.latitude.Some? && ParseNumber(pdv.latitude.value).Some?
    && pdv.longitude.Some? && ParseNumber(pdv.longitude.value).Some?
  }

  /** What the `prix` step leaves: `Some(prices)` when it assigns 'prix', `None` when
      the key is missing or `_get_prices` raises `KeyError` (both caught), and the
      `ValueError` of a malformed price, which propagates. */
  function NewPrix(pdv: RawPdv): (r: Result<Option<Prices>, Error>)
    ensures r.Success? && r.value.Some? <==> pdv.prix.Some? && CleanPrices(pdv.prix.value).Success?
    ensures r.Success? && r.value.Some? ==> r.value.value == CleanPrices(pdv.prix.value).value
    ensures r.Failure? <==> pdv.prix.Some? && CleanPrices(pdv.prix.value).Failure? && CleanPrices(pdv.prix.value).error.ValueError?
    ensures r.Failure? ==> r.error == CleanPrices(pdv.prix.value).error
  {
    if pdv.prix.None? then Success(None)
    else match CleanPrices(pdv.prix.value)
      case Success(m) => Success(Some(m))
      case Failure(e) => if e.KeyError? then Success(None) else Failure(e)
  }

  /** The body an open record leaves under its id, or the exception it raises.
      `previous` is the 'prix' the body already had from an earlier record with the
      same id: the `defaultdict` entry is reused, and a record without prices does
      not remove it. */
  function Normalize(pdv: RawPdv, previous: Option<Prices>): (r: Result<Station, Error>)
    ensures r.Success? <==>
      && pdv.cp.Some? && Coordinates(pdv).Success? && pdv.adresse.Some?
      && pdv.ouverture.Some? && "@saufjour" in pdv.ouverture.value
      && NewPrix(pdv).Success? && pdv.ville.Some?
    ensures r.Success? ==>
      && r.value.cp == pdv.cp.value
      && r.value.ville == pdv.ville.value
      && r.value.adresse == Lower(pdv.adresse.value)
      && r.value.saufjour == Lower(pdv.ouverture.value["@saufjour"])
      && r.value.localisation == Coordinates(pdv).value
      && r.value.prix == (if NewPrix(pdv).value.Some? then NewPrix(pdv).value else previous)
  {
    if pdv.cp.None? then Failure(KeyError("@cp"))
    else
      var localisation :- Coordinates(pdv);
      if pdv.adresse.None? then Failure(KeyError("adresse"))
      else if pdv.ouverture.None? then Failure(KeyError("ouverture"))
      else if "@saufjour" !in pdv.ouverture.value then Failure(KeyError("@saufjour"))
      else
        var prix :- NewPrix(pdv);
        if pdv.ville.None? then Failure(KeyError("ville"))
        else Success(Station(
          pdv.cp.value,
          localisation,
          Lower(pdv.adresse.value),
          Lower(pdv.ouverture.value["@saufjour"]),
          if prix.Some? then prix else previous,
          pdv.ville.value))
  }

  /** Storing a body under an id: a new id goes to the end of the iteration order,
      a known id keeps its place. */
  function Insert(s: Snapshot, id: string, st: Station): Snapshot {
    Snapshot(if id in s.stations then s.order else s.order + [id], s.stations[id := st])
  }

  /** One iteration of the loop. '@id' is read before the closure test. */
  function Step(s: Snapshot, pdv: RawPdv): Result<Snapshot, Error> {
    if pdv.id.None? then Failure(KeyError("@id"))
    else if pdv.fermeture then Success(s)
    else
      var id := pdv.id.value;
      var st :- Normalize(pdv, if id in s.stations then s.stations[id].prix else None);
      Success(Insert(s, id, st))
  }

  /** The whole loop: records in feed order; the first exception ends it. */
  function Extract(pdvs: seq<RawPdv>): Result<Snapshot, Error>
    decreases |pdvs|
  {
    if pdvs == [] then Success(EmptySnapshot)
    else
      var s :- Extract(pdvs[..|pdvs| - 1]);
      Step(s, pdvs[|pdvs| - 1])
  }

  /** One pass of the loop body of `_extract_pdv_data`: the record's fields are
      read in the order the source reads them and the body is stored under its id. */
  method StorePdv(order: seq<string>, data: map<string, Station>, pdv: RawPdv)
    returns (r: Result<Snapshot, Error>)
    ensures r == Step(Snapshot(order, data), pdv)
  {
    if pdv.id.None? {
      return Failure(KeyError("@id"));
    }
    var pdvId := pdv.id.value;
    if pdv.fermeture {
      return Success(Snapshot(order, data));
    }
    if pdv.cp.None? {
      return Failure(KeyError("@cp"));
    }
    var cp := pdv.cp.value;
    var localisation: map<string, real> := map[];
    if pdv.latitude.None? {
      return Failure(KeyError("@latitude"));
    }
    var lat := ParseNumber(pdv.latitude.value);
    if lat.Some? {
      localisation := localisation["lat" := lat.value / 100000.0];
      if pdv.longitude.None? {
        return Failure(KeyError("@longitude"));
      }
      var lon := ParseNumber(pdv.longitude.value);
      if lon.Some? {
        localisation := localisation["lon" := lon.value / 100000.0];
      }
    }
    assert Coordinates(pdv) == Success(localisation);
    if pdv.adresse.None? {
      return Failure(KeyError("adresse"));
    }
    var adresse := Lower(pdv.adresse.value);
    if pdv.ouverture.None? {
      return Failure(KeyError("ouverture"));
    }
    if "@saufjour" !in pdv.ouverture.value {
      return Failure(KeyError("@saufjour"));
    }
    var saufjour := Lower(pdv.ouverture.value["@saufjour"]);
    var previous := if pdvId in data then data[pdvId].prix else None;
    var prix := previous;
    if pdv.prix.Some? {
      var clean, _ := GetPrices(pdv.prix.value);
      if clean.Success? {
        prix := Some(clean.value);
      } else if clean.error.ValueError? {
        return Failure(clean.error);
      }
    }
    assert NewPrix(pdv).Success? && prix == (if NewPrix(pdv).value.Some? then NewPrix(pdv).value else previous);
    if pdv.ville.None? {
      return Failure(KeyError("ville"));
    }
    var newOrder := if pdvId in data then order else order + [pdvId];
    r := Success(Snapshot(newOrder, data[pdvId := Station(cp, localisation, adresse, saufjour, prix, pdv.ville.value)]));
  }

  /** `_extract_pdv_data(pdvs)`: the `defaultdict` is the pair of locals `order`
      (its keys in insertion order) and `data`. */
  method ExtractPdvData(pdvs: seq<RawPdv>) returns (r: Result<Snapshot, Error>)
    ensures r == Extract(pdvs)
    ensures r.Success? ==> r.value.Valid()
  {
    var order: seq<string> := [];
    var data: map<string, Station> := map[];
    for i := 0 to |pdvs|
      invariant Extract(pdvs[..i]) == Success(Snapshot(order, data))
    {
      assert pdvs[..i + 1][..i] == pdvs[..i];
      var stored := StorePdv(order, data, pdvs[i]);
      if stored.Failure? {
        ExtractFailureSticks(pdvs, i + 1);
        return Failure(stored.error);
      }
      order, data := stored.value.order, stored.value.stations;
    }
    assert pdvs[..|pdvs|] == pdvs;
    r := Success(Snapshot(order, data));
    ExtractValid(pdvs);
  }

  /** Once the loop has raised on a prefix, the whole extraction raises the same. */
  lemma {:induction false} ExtractFailureSticks(pdvs: seq<RawPdv>, k: nat)
    requires k <= |pdvs|
    requires Extract(pdvs[..k]).Failure?
    ensures Extract(pdvs) == Extract(pdvs[..k])
    decreases |pdvs| - k
  {
    if k < |pdvs| {
      assert pdvs[..k + 1][..k] == pdvs[..k];
      ExtractFailureSticks(pdvs, k + 1);
    } else {
      assert pdvs[..k] == pdvs;
    }
  }

  /** Every snapshot the loop builds lists each of its ids once, in its order. */
  lemma {:induction false} ExtractValid(pdvs: seq<RawPdv>)
    requires Extract(pdvs).Success?
    ensures Extract(pdvs).value.Valid()
    decreases |pdvs|
  {
    if pdvs != [] {
      ExtractValid(pdvs[..|pdvs| - 1]);
    }
  }
}
