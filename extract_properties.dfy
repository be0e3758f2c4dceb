/** What a successful `_extract_pdv_data` promises about the snapshot, stated in
    terms of the raw records alone. */
module ExtractProperties {
  import opened Wrappers
  import opened Text
  import opened Records
  import opened PriceParser
  import opened Extraction

  /** A record that is not closed and carries this id. */
  predicate OpenWith(pdv: RawPdv, x: string) {
    pdv.id == Some(x) && !pdv.fermeture
  }

  /** The ids of the open records, in feed order, repeats included. */
  function OpenIds(pdvs: seq<RawPdv>): seq<string>
    decreases |pdvs|
  {
    if pdvs == [] then []
    else
      var last := pdvs[|pdvs| - 1];
      OpenIds(pdvs[..|pdvs| - 1]) + (if last.id.Some? && !last.fermeture then [last.id.value] else [])
  }

  /** The first occurrence of each element, in order. */
  function FirstOccurrences(xs: seq<string>): (r: seq<string>)
    ensures forall x :: x in r <==> x in xs
    decreases |xs|
  {
    if xs == [] then []
    else
      var init := FirstOccurrences(xs[..|xs| - 1]);
      var x := xs[|xs| - 1];
      assert forall y :: y in xs <==> y in xs[..|xs| - 1] || y == x;
      if x in init then init else init + [x]
  }

  /** A successful extraction is the previous one followed by one step. */
  lemma ExtractUnfold(pdvs: seq<RawPdv>)
    requires pdvs != [] && Extract(pdvs).Success?
    ensures Extract(pdvs[..|pdvs| - 1]).Success?
    ensures Extract(pdvs) == Step(Extract(pdvs[..|pdvs| - 1]).value, pdvs[|pdvs| - 1])
  {
  }

  /** A step on a record that is closed or has another id leaves this id's entry alone. */
  lemma StepOther(s: Snapshot, pdv: RawPdv, x: string)
    requires Step(s, pdv).Success? && !OpenWith(pdv, x)
    ensures x in Step(s, pdv).value.stations <==> x in s.stations
    ensures x in s.stations ==> Step(s, pdv).value.stations[x] == s.stations[x]
  {
  }

  /** A step on an open record with this id stores the record's normalised body,
      keeping the 'prix' the entry already had. */
  lemma StepOpen(s: Snapshot, pdv: RawPdv, x: string)
    requires Step(s, pdv).Success? && OpenWith(pdv, x)
    ensures Normalize(pdv, if x in s.stations then s.stations[x].prix else None).Success?
    ensures x in Step(s, pdv).value.stations
    ensures Step(s, pdv).value.stations[x] == Normalize(pdv, if x in s.stations then s.stations[x].prix else None).value
  {
  }

  /** Some record of a non-empty feed is open with this id exactly when one before
      the last is, or the last is. */
  lemma SomeOpenUnfold(pdvs: seq<RawPdv>, init: seq<RawPdv>, x: string)
    requires pdvs != [] && init == pdvs[..|pdvs| - 1]
    ensures (exists j :: 0 <= j < |pdvs| && OpenWith(pdvs[j], x)) <==>
      (exists j :: 0 <= j < |init| && OpenWith(init[j], x)) || OpenWith(pdvs[|pdvs| - 1], x)
  {
    if exists j :: 0 <= j < |pdvs| && OpenWith(pdvs[j], x) {
      var j :| 0 <= j < |pdvs| && OpenWith(pdvs[j], x);
      if j < |init| {
        assert OpenWith(init[j], x);
      }
    }
    if exists j :: 0 <= j < |init| && OpenWith(init[j], x) {
      var j :| 0 <= j < |init| && OpenWith(init[j], x);
      assert OpenWith(pdvs[j], x);
    }
  }

  /** An id is in the snapshot exactly when some open record carries it: a closed
      record never creates an entry. */
  lemma {:induction false} ExtractKeys(pdvs: seq<RawPdv>, x: string)
    requires Extract(pdvs).Success?
    ensures x in Extract(pdvs).value.stations <==> exists j :: 0 <= j < |pdvs| && OpenWith(pdvs[j], x)
    decreases |pdvs|
  {
    if pdvs != [] {
      var n := |pdvs|;
      var init := pdvs[..n - 1];
      ExtractUnfold(pdvs);
      ExtractKeys(init, x);
      SomeOpenUnfold(pdvs, init, x);
      if OpenWith(pdvs[n - 1], x) {
        StepOpen(Extract(init).value, pdvs[n - 1], x);
      } else {
        StepOther(Extract(init).value, pdvs[n - 1], x);
      }
    }
  }

  /** A feed of closed stations only gives an empty snapshot. */
  lemma ClosedOnlyEmpty(pdvs: seq<RawPdv>)
    requires Extract(pdvs).Success?
    requires forall j :: 0 <= j < |pdvs| ==> pdvs[j].fermeture
    ensures Extract(pdvs).value.stations == map[]
    ensures Extract(pdvs).value.order == []
  {
    ExtractValid(pdvs);
    var s := Extract(pdvs).value;
    if s.order != [] {
      ExtractKeys(pdvs, s.order[0]);
      assert false;
    }
    assert s.stations.Keys == {};
  }

  /** The body under an id is built from the LAST open record with that id, except
      for 'prix' (see ExtractPrixAbsent and ExtractPrixLastPriced). */
  lemma {:induction false} ExtractFields(pdvs: seq<RawPdv>, j: nat, x: string)
    requires Extract(pdvs).Success?
    requires j < |pdvs| && OpenWith(pdvs[j], x)
    requires forall k :: j < k < |pdvs| ==> !OpenWith(pdvs[k], x)
    ensures x in Extract(pdvs).value.stations
    ensures var st := Extract(pdvs).value.stations[x]; var pdv := pdvs[j];
      && pdv.cp.Some? && pdv.adresse.Some? && pdv.ville.Some?
      && pdv.ouverture.Some? && "@saufjour" in pdv.ouverture.value
      && Coordinates(pdv).Success?
      && st.cp == pdv.cp.value
      && st.ville == pdv.ville.value
      && st.adresse == Lower(pdv.adresse.value)
      && st.saufjour == Lower(pdv.ouverture.value["@saufjour"])
      && st.localisation == Coordinates(pdv).value
    decreases |pdvs|
  {
    var n := |pdvs|;
    var init := pdvs[..n - 1];
    ExtractUnfold(pdvs);
    if j < n - 1 {
      assert init[j] == pdvs[j];
      ExtractFields(init, j, x);
    }
  }

  /** No open record with this id has a price section that parsed. */
  predicate NeverPriced(pdvs: seq<RawPdv>, x: string) {
    forall j :: 0 <= j < |pdvs| && OpenWith(pdvs[j], x) ==> NewPrix(pdvs[j]) == Success(None)
  }

  lemma NeverPricedUnfold(pdvs: seq<RawPdv>, x: string)
    requires pdvs != []
    ensures NeverPriced(pdvs, x) <==>
      && NeverPriced(pdvs[..|pdvs| - 1], x)
      && (OpenWith(pdvs[|pdvs| - 1], x) ==> NewPrix(pdvs[|pdvs| - 1]) == Success(None))
  {
    assert forall j :: 0 <= j < |pdvs| - 1 ==> pdvs[..|pdvs| - 1][j] == pdvs[j];
  }

  /** The body has no 'prix' exactly when no open record with its id had a price
      section that parsed. */
  lemma {:induction false} ExtractPrixAbsent(pdvs: seq<RawPdv>, x: string)
    requires Extract(pdvs).Success?
    requires x in Extract(pdvs).value.stations
    ensures Extract(pdvs).value.stations[x].prix.None? <==> NeverPriced(pdvs, x)
    decreases |pdvs|
  {
    var n := |pdvs|;
    var init := pdvs[..n - 1];
    var last := pdvs[n - 1];
    ExtractUnfold(pdvs);
    NeverPricedUnfold(pdvs, x);
    var before := Extract(init).value;
    if !OpenWith(last, x) {
      StepOther(before, last, x);
      ExtractPrixAbsent(init, x);
    } else {
      StepOpen(before, last, x);
      if x in before.stations {
        ExtractPrixAbsent(init, x);
      } else {
        ExtractKeys(init, x);
        assert NeverPriced(init, x);
      }
    }
  }

  /** No open record with this id after position j has a price section that parsed. */
  predicate UnpricedAfter(pdvs: seq<RawPdv>, j: nat, x: string) {
    forall k :: j < k < |pdvs| && OpenWith(pdvs[k], x) ==> NewPrix(pdvs[k]) == Success(None)
  }

  lemma UnpricedAfterUnfold(pdvs: seq<RawPdv>, j: nat, x: string)
    requires j < |pdvs| - 1 && UnpricedAfter(pdvs, j, x)
    ensures UnpricedAfter(pdvs[..|pdvs| - 1], j, x)
    ensures OpenWith(pdvs[|pdvs| - 1], x) ==> NewPrix(pdvs[|pdvs| - 1]) == Success(None)
  {
    assert forall k :: j < k < |pdvs| - 1 ==> pdvs[..|pdvs| - 1][k] == pdvs[k];
  }

  /** Otherwise 'prix' comes from the last open record with its id whose price
      section parsed, even when later records with that id had none. */
  lemma {:induction false} ExtractPrixLastPriced(pdvs: seq<RawPdv>, j: nat, x: string, p: Prices)
    requires Extract(pdvs).Success?
    requires j < |pdvs| && OpenWith(pdvs[j], x) && NewPrix(pdvs[j]) == Success(Some(p))
    requires UnpricedAfter(pdvs, j, x)
    ensures x in Extract(pdvs).value.stations
    ensures Extract(pdvs).value.stations[x].prix == Some(p)
    decreases |pdvs|
  {
    var n := |pdvs|;
    var init := pdvs[..n - 1];
    ExtractUnfold(pdvs);
    if j < n - 1 {
      UnpricedAfterUnfold(pdvs, j, x);
      assert init[j] == pdvs[j];
      ExtractPrixLastPriced(init, j, x, p);
      ExtractKeepsPrix(pdvs, init, x, p);
    } else {
      StepSetsPrix(Extract(init).value, pdvs[n - 1], x, p);
    }
  }

  /** A last record that brings no parsed price for this id keeps the 'prix' the
      records before it gave. */
  lemma ExtractKeepsPrix(pdvs: seq<RawPdv>, init: seq<RawPdv>, x: string, p: Prices)
    requires pdvs != [] && init == pdvs[..|pdvs| - 1] && Extract(pdvs).Success?
    requires Extract(init).Success? && x in Extract(init).value.stations
    requires Extract(init).value.stations[x].prix == Some(p)
    requires OpenWith(pdvs[|pdvs| - 1], x) ==> NewPrix(pdvs[|pdvs| - 1]) == Success(None)
    ensures x in Extract(pdvs).value.stations
    ensures Extract(pdvs).value.stations[x].prix == Some(p)
  {
    ExtractUnfold(pdvs);
    StepKeepsPrix(Extract(init).value, pdvs[|pdvs| - 1], x, p);
  }

  /** A step that brings no parsed price for this id keeps its 'prix'. */
  lemma StepKeepsPrix(s: Snapshot, pdv: RawPdv, x: string, p: Prices)
    requires Step(s, pdv).Success? && x in s.stations && s.stations[x].prix == Some(p)
    requires OpenWith(pdv, x) ==> NewPrix(pdv) == Success(None)
    ensures x in Step(s, pdv).value.stations
    ensures Step(s, pdv).value.stations[x].prix == Some(p)
  {
    if OpenWith(pdv, x) {
      StepOpen(s, pdv, x);
    } else {
      StepOther(s, pdv, x);
    }
  }

  /** A step on an open record with this id whose prices parse sets its 'prix'. */
  lemma StepSetsPrix(s: Snapshot, pdv: RawPdv, x: string, p: Prices)
    requires Step(s, pdv).Success? && OpenWith(pdv, x) && NewPrix(pdv) == Success(Some(p))
    ensures x in Step(s, pdv).value.stations
    ensures Step(s, pdv).value.stations[x].prix == Some(p)
  {
    StepOpen(s, pdv, x);
  }

  /** The snapshot iterates its ids in the order of their first open record. */
  lemma {:induction false} ExtractOrder(pdvs: seq<RawPdv>)
    requires Extract(pdvs).Success?
    ensures Extract(pdvs).value.order == FirstOccurrences(OpenIds(pdvs))
    decreases |pdvs|
  {
    if pdvs != [] {
      var n := |pdvs|;
      var init := pdvs[..n - 1];
      ExtractUnfold(pdvs);
      ExtractOrder(init);
      ExtractValid(init);
      var last := pdvs[n - 1];
      if last.id.Some? && !last.fermeture {
        var ids := OpenIds(pdvs);
        assert ids[..|ids| - 1] == OpenIds(init);
      } else {
        assert OpenIds(pdvs) == OpenIds(init);
      }
    }
  }

  /** Record j is the first to raise: every earlier one went through, and the
      extraction raises what record j raises. */
  predicate FirstRaiseAt(pdvs: seq<RawPdv>, j: nat) {
    && j < |pdvs| && Extract(pdvs[..j]).Success?
    && Step(Extract(pdvs[..j]).value, pdvs[j]).Failure?
    && Extract(pdvs) == Step(Extract(pdvs[..j]).value, pdvs[j])
  }

  /** The extraction raises exactly when some record raises after every earlier
      one went through, and it raises that record's exception. */
  lemma {:induction false} ExtractFirstFailure(pdvs: seq<RawPdv>)
    requires Extract(pdvs).Failure?
    ensures exists j: nat :: FirstRaiseAt(pdvs, j)
    decreases |pdvs|
  {
    var n := |pdvs|;
    var init := pdvs[..n - 1];
    assert Extract(pdvs) == (if Extract(init).Failure? then Extract(init) else Step(Extract(init).value, pdvs[n - 1]));
    if Extract(init).Failure? {
      ExtractFirstFailure(init);
      var j: nat :| FirstRaiseAt(init, j);
      assert init[..j] == pdvs[..j] && init[j] == pdvs[j];
      assert FirstRaiseAt(pdvs, j);
    } else {
      assert FirstRaiseAt(pdvs, n - 1);
    }
  }

  /** A price text `float` refuses is not caught: once the earlier fields of an
      open record are readable, it aborts the whole extraction with `ValueError`. */
  lemma PriceValueErrorAborts(pdvs: seq<RawPdv>, j: nat)
    requires j < |pdvs| && Extract(pdvs[..j]).Success?
    requires pdvs[j].id.Some? && !pdvs[j].fermeture
    requires pdvs[j].cp.Some? && Coordinates(pdvs[j]).Success? && pdvs[j].adresse.Some?
    requires pdvs[j].ouverture.Some? && "@saufjour" in pdvs[j].ouverture.value
    requires pdvs[j].prix.Some? && CleanPrices(pdvs[j].prix.value).Failure?
    requires CleanPrices(pdvs[j].prix.value).error.ValueError?
    ensures Extract(pdvs) == Failure(CleanPrices(pdvs[j].prix.value).error)
  {
    var pdv := pdvs[j];
    var e := CleanPrices(pdv.prix.value).error;
    var s := Extract(pdvs[..j]).value;
    var previous := if pdv.id.value in s.stations then s.stations[pdv.id.value].prix else None;
    assert NewPrix(pdv) == Failure(e);
    assert Normalize(pdv, previous) == Failure(e);
    assert Step(s, pdv) == Failure(e);
    assert pdvs[..j + 1][..j] == pdvs[..j];
    assert Extract(pdvs[..j + 1]) == Failure(e);
    ExtractFailureSticks(pdvs, j + 1);
  }
}
