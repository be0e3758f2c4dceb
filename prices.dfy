/** `_get_prices`: a station's price section to a map from fuel name to price. */
module PriceParser {
  import opened Wrappers
  import opened Text
  import opened Records

  /** The price one list entry stands for, `float(price['@valeur']) / 1000.0`. */
  function PriceValue(valeur: string): Option<real> {
    match ParseNumber(valeur)
    case Some(x) => Some(x / 1000.0)
    case None => None
  }

  /** What `clean_prices[price['@nom']] = float(price['@valeur']) / 1000.0` does
      with one entry. Python evaluates the right-hand side first, so a missing or
      malformed '@valeur' is reported before a missing '@nom'. */
  function EntryPrice(e: Attributes): (r: Result<(string, real), Error>)
    ensures r.Success? <==> "@valeur" in e && PriceValue(e["@valeur"]).Some? && "@nom" in e
    ensures r.Failure? && r.error.ValueError? <==> "@valeur" in e && PriceValue(e["@valeur"]).None?
  {
    if "@valeur" !in e then Failure(KeyError("@valeur"))
    else if PriceValue(e["@valeur"]).None? then Failure(ValueError(e["@valeur"]))
    else if "@nom" !in e then Failure(KeyError("@nom"))
    else Success((e["@nom"], PriceValue(e["@valeur"]).value))
  }

  /** The list branch, entry after entry: the first failing entry ends it. */
  function ListPrices(entries: seq<Attributes>): Result<Prices, Error>
    decreases |entries|
  {
    if entries == [] then Success(map[])
    else
      var acc :- ListPrices(entries[..|entries| - 1]);
      var p :- EntryPrice(entries[|entries| - 1]);
      Success(acc[p.0 := p.1])
  }

  /** The map `_get_prices` returns, or the exception it raises. A single entry
      yields an empty map: its price is stored in the entry itself, not in the
      result. */
  function CleanPrices(section: PriceSection): Result<Prices, Error> {
    match section
    case Single(e) =>
      if "@valeur" !in e then Failure(KeyError("@valeur"))
      else if PriceValue(e["@valeur"]).None? then Failure(ValueError(e["@valeur"]))
      else Success(map[])
    case Many(entries) => ListPrices(entries)
  }

  /** The value the single-entry branch stores under the literal key '@nom' of its
      argument; `None` when it stores nothing. */
  function WrittenNom(section: PriceSection): Option<real> {
    match section
    case Single(e) => if "@valeur" in e then PriceValue(e["@valeur"]) else None
    case Many(_) => None
  }

  /** `_get_prices(prices)`. The argument's only change, when `nom` is `Some(v)`, is
      its '@nom' key now holding `v`. */
  method GetPrices(prices: PriceSection) returns (clean: Result<Prices, Error>, nom: Option<real>)
    ensures clean == CleanPrices(prices)
    ensures nom == WrittenNom(prices)
  {
    var cleanPrices: Prices := map[];
    nom := None;
    match prices {
      case Single(e) =>
        if "@valeur" !in e {
          return Failure(KeyError("@valeur")), None;
        }
        var v := PriceValue(e["@valeur"]);
        if v.None? {
          return Failure(ValueError(e["@valeur"])), None;
        }
        nom := v;
      case Many(entries) =>
        for i := 0 to |entries|
          invariant ListPrices(entries[..i]) == Success(cleanPrices)
        {
          var price := entries[i];
          assert entries[..i + 1][..i] == entries[..i];
          if EntryPrice(price).Failure? {
            ListPricesFailureSticks(entries, i + 1);
          }
          if "@valeur" !in price {
            return Failure(KeyError("@valeur")), None;
          }
          var v := PriceValue(price["@valeur"]);
          if v.None? {
            return Failure(ValueError(price["@valeur"])), None;
          }
          if "@nom" !in price {
            return Failure(KeyError("@nom")), None;
          }
          cleanPrices := cleanPrices[price["@nom"] := v.value];
        }
        assert entries[..|entries|] == entries;
    }
    clean := Success(cleanPrices);
  }

  /** Once a prefix of the list fails, the whole list fails the same way. */
  lemma {:induction false} ListPricesFailureSticks(entries: seq<Attributes>, k: nat)
    requires k <= |entries|
    requires ListPrices(entries[..k]).Failure?
    ensures ListPrices(entries) == ListPrices(entries[..k])
    decreases |entries| - k
  {
    if k < |entries| {
      assert entries[..k + 1][..k] == entries[..k];
      ListPricesFailureSticks(entries, k + 1);
    } else {
      assert entries[..k] == entries;
    }
  }

  /** The list branch succeeds exactly when every entry has a parsable '@valeur'
      and a '@nom'. */
  lemma {:induction false} ListPricesSucceeds(entries: seq<Attributes>)
    ensures ListPrices(entries).Success? <==> forall i :: 0 <= i < |entries| ==> EntryPrice(entries[i]).Success?
    decreases |entries|
  {
    if entries != [] {
      var init := entries[..|entries| - 1];
      ListPricesSucceeds(init);
      assert forall i :: 0 <= i < |init| ==> init[i] == entries[i];
    }
  }

  /** On failure the exception is the one of the first failing entry. */
  lemma {:induction false} ListPricesFirstError(entries: seq<Attributes>)
    requires ListPrices(entries).Failure?
    ensures exists j :: (0 <= j < |entries|
      && (forall i :: 0 <= i < j ==> EntryPrice(entries[i]).Success?)
      && EntryPrice(entries[j]).Failure?
      && ListPrices(entries).error == EntryPrice(entries[j]).error)
    decreases |entries|
  {
    var n := |entries|;
    var init := entries[..n - 1];
    assert forall i :: 0 <= i < |init| ==> init[i] == entries[i];
    if ListPrices(init).Failure? {
      ListPricesFirstError(init);
      var j :| 0 <= j < |init|
        && (forall i :: 0 <= i < j ==> EntryPrice(init[i]).Success?)
        && EntryPrice(init[j]).Failure?
        && ListPrices(init).error == EntryPrice(init[j]).error;
      assert EntryPrice(entries[j]).Failure?;
    } else {
      ListPricesSucceeds(init);
      assert EntryPrice(entries[n - 1]).Failure?;
    }
  }

  /** On success the fuel names are exactly the entries' '@nom' values. */
  lemma {:induction false} ListPricesKeys(entries: seq<Attributes>)
    requires ListPrices(entries).Success?
    ensures forall i :: 0 <= i < |entries| ==> "@nom" in entries[i]
    ensures ListPrices(entries).value.Keys == set i | 0 <= i < |entries| :: entries[i]["@nom"]
    decreases |entries|
  {
    if entries != [] {
      var n := |entries|;
      var init := entries[..n - 1];
      var last := entries[n - 1];
      ListPricesKeys(init);
      assert ListPrices(entries).value == ListPrices(init).value[last["@nom"] := EntryPrice(last).value.1];
      assert forall i :: 0 <= i < n - 1 ==> init[i] == entries[i];
      NamesSnoc(entries, init);
    }
  }

  /** The names of a list are those of all but its last entry, and the last one's. */
  lemma NamesSnoc(entries: seq<Attributes>, init: seq<Attributes>)
    requires entries != [] && init == entries[..|entries| - 1]
    requires forall i :: 0 <= i < |entries| ==> "@nom" in entries[i]
    ensures (set i | 0 <= i < |entries| :: entries[i]["@nom"])
      == (set i | 0 <= i < |init| :: init[i]["@nom"]) + {entries[|entries| - 1]["@nom"]}
  {
    var n := |entries|;
    var names := set i | 0 <= i < n :: entries[i]["@nom"];
    var initNames := set i | 0 <= i < n - 1 :: init[i]["@nom"];
    forall y | y in names
      ensures y in initNames || y == entries[n - 1]["@nom"]
    {
      var i :| 0 <= i < n && entries[i]["@nom"] == y;
      if i < n - 1 {
        assert init[i]["@nom"] == y;
      }
    }
    forall y | y in initNames
      ensures y in names
    {
      var i :| 0 <= i < n - 1 && init[i]["@nom"] == y;
      assert entries[i]["@nom"] == y;
    }
    assert entries[n - 1]["@nom"] in names;
  }

  /** On success each fuel's price is that of the LAST entry carrying its name. */
  lemma {:induction false} ListPricesLastWins(entries: seq<Attributes>, j: nat)
    requires ListPrices(entries).Success?
    requires j < |entries|
    requires "@nom" in entries[j]
    requires forall i :: j < i < |entries| && "@nom" in entries[i] ==> entries[i]["@nom"] != entries[j]["@nom"]
    ensures "@valeur" in entries[j] && PriceValue(entries[j]["@valeur"]).Some?
    ensures entries[j]["@nom"] in ListPrices(entries).value
    ensures ListPrices(entries).value[entries[j]["@nom"]] == PriceValue(entries[j]["@valeur"]).value
    decreases |entries|
  {
    ListPricesSucceeds(entries);
    var n := |entries|;
    var init := entries[..n - 1];
    assert forall i :: 0 <= i < |init| ==> init[i] == entries[i];
    if j < n - 1 {
      ListPricesLastWins(init, j);
    }
  }

  /** The single-entry branch: an empty map, and the entry's price written into
      the argument instead. */
  lemma SingleEntryPrices(e: Attributes)
    requires "@valeur" in e && PriceValue(e["@valeur"]).Some?
    ensures CleanPrices(Single(e)) == Success(map[])
    ensures WrittenNom(Single(e)) == Some(ParseNumber(e["@valeur"]).value / 1000.0)
  {
  }
}
