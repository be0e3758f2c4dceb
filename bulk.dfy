/** From a snapshot to index writes: `_format_for_bulk`, which builds the actions
    handed to the bulk helper, and the loop of `write_actions_for_bulk`, which writes
    a bulk-request file. */
module Bulk {
  import opened Wrappers
  import opened Records

  /** `len(pdv_infos['localisation'].keys()) == 2`. */
  predicate HasFullLocation(st: Station) {
    |st.localisation| == 2
  }

  /** Every id in the iteration order has a body. */
  predicate Covers(order: seq<string>, stations: map<string, Station>) {
    forall i :: 0 <= i < |order| ==> order[i] in stations
  }

  /** The actions for the ids of `order`, in that order: one per station whose
      `localisation` has two keys. */
  function BulkActions(index: string, docType: string, order: seq<string>, stations: map<string, Station>): seq<Action>
    requires Covers(order, stations)
    decreases |order|
  {
    if order == [] then []
    else
      var id := order[|order| - 1];
      BulkActions(index, docType, order[..|order| - 1], stations)
        + (if HasFullLocation(stations[id]) then [Action(index, docType, id, Doc(stations[id], id))] else [])
  }

  /** `_format_for_bulk(index_name, doc_type)` on the snapshot it reads back. */
  method FormatForBulk(indexName: string, docType: string, snapshot: Snapshot) returns (actions: seq<Action>)
    requires Covers(snapshot.order, snapshot.stations)
    ensures actions == BulkActions(indexName, docType, snapshot.order, snapshot.stations)
  {
    actions := [];
    for i := 0 to |snapshot.order|
      invariant actions == BulkActions(indexName, docType, snapshot.order[..i], snapshot.stations)
    {
      assert snapshot.order[..i + 1][..i] == snapshot.order[..i];
      var pdvId := snapshot.order[i];
      var pdvInfos := snapshot.stations[pdvId];
      if |pdvInfos.localisation.Keys| == 2 {
        var action := Action(indexName, docType, pdvId, Doc(pdvInfos, pdvId));
        actions := actions + [action];
      }
    }
    assert snapshot.order[..|snapshot.order|] == snapshot.order;
  }

  /** Some action targets this id. */
  predicate HasActionFor(actions: seq<Action>, x: string) {
    exists i :: 0 <= i < |actions| && actions[i].id == x
  }

  /** An id has an action exactly when it is in the snapshot and its station has
      both coordinates. */
  lemma {:induction false} BulkMembership(index: string, docType: string, order: seq<string>,
                                          stations: map<string, Station>, x: string)
    requires Covers(order, stations)
    ensures HasActionFor(BulkActions(index, docType, order, stations), x) <==> x in order && HasFullLocation(stations[x])
    decreases |order|
  {
    if order != [] {
      var n := |order|;
      var init := order[..n - 1];
      var last := order[n - 1];
      BulkMembership(index, docType, init, stations, x);
      var before := BulkActions(index, docType, init, stations);
      var actions := BulkActions(index, docType, order, stations);
      assert forall i :: 0 <= i < |before| ==> actions[i] == before[i];
      assert forall y :: y in order <==> y in init || y == last;
      if x == last && HasFullLocation(stations[x]) {
        assert actions[|before|].id == x;
      }
      if HasActionFor(actions, x) {
        var i :| 0 <= i < |actions| && actions[i].id == x;
        if i < |before| {
          assert before[i].id == x;
        }
      }
    }
  }

  /** Each action targets the given index and type, and its source is the station's
      body with the station id added. */
  lemma {:induction false} BulkShape(index: string, docType: string, order: seq<string>, stations: map<string, Station>)
    requires Covers(order, stations)
    ensures forall a :: a in BulkActions(index, docType, order, stations) ==>
      && a.index == index && a.docType == docType
      && a.id in order && a.id in stations && HasFullLocation(stations[a.id])
      && a.source == Doc(stations[a.id], a.id)
    decreases |order|
  {
    if order != [] {
      BulkShape(index, docType, order[..|order| - 1], stations);
    }
  }

  /** Action i comes before action j only if its id comes before j's id in `order`. */
  ghost predicate FollowsOrder(actions: seq<Action>, order: seq<string>) {
    forall i, j :: 0 <= i < j < |actions| ==> Precedes(order, actions[i].id, actions[j].id)
  }

  ghost predicate Precedes(order: seq<string>, x: string, y: string) {
    exists p, q :: 0 <= p < q < |order| && order[p] == x && order[q] == y
  }

  /** The actions keep the snapshot's iteration order. */
  lemma {:induction false} BulkOrder(index: string, docType: string, order: seq<string>, stations: map<string, Station>)
    requires Covers(order, stations)
    ensures FollowsOrder(BulkActions(index, docType, order, stations), order)
    decreases |order|
  {
    if order != [] {
      var n := |order|;
      var init := order[..n - 1];
      BulkOrder(index, docType, init, stations);
      var before := BulkActions(index, docType, init, stations);
      var actions := BulkActions(index, docType, order, stations);
      assert forall i :: 0 <= i < |before| ==> actions[i] == before[i];
      forall i, j | 0 <= i < j < |actions|
        ensures Precedes(order, actions[i].id, actions[j].id)
      {
        if j < |before| {
          assert Precedes(init, before[i].id, before[j].id);
          var p, q :| 0 <= p < q < n - 1 && init[p] == before[i].id && init[q] == before[j].id;
          assert order[p] == actions[i].id && order[q] == actions[j].id;
        } else {
          assert i < |before| && j == |before|;
          BulkShape(index, docType, init, stations);
          assert before[i] in before;
          var p :| 0 <= p < |init| && init[p] == before[i].id;
          assert order[p] == actions[i].id && order[n - 1] == actions[j].id;
        }
      }
    }
  }

  const MetaOpen: string := "{ \"index\" : { \"_index\" : \""
  const MetaAfterIndex: string := "\", \"_type\" : \""
  const MetaAfterType: string := "\", \"_id\" : \""
  const MetaClose: string := "\" } }"

  /** The metadata line, filled in by `%` formatting: the three values are pasted
      in as they are, without JSON escaping. */
  function MetaLine(index: string, docType: string, id: string): string {
    MetaOpen + index + MetaAfterIndex + docType + MetaAfterType + id + MetaClose
  }

  /** The text up to the first double quote, and the rest from that quote on. */
  function UntilQuote(s: string): (r: (string, string))
    ensures r.0 + r.1 == s
    ensures '"' !in r.0
    ensures r.1 == [] || r.1[0] == '"'
  {
    if s == [] then ([], [])
    else if s[0] == '"' then ([], s)
    else
      var rest := UntilQuote(s[1..]);
      assert [s[0]] + rest.0 + rest.1 == s;
      ([s[0]] + rest.0, rest.1)
  }

  /** Splitting a text in front of its first quote finds that split. */
  lemma {:induction false} UntilQuoteSplit(x: string, y: string)
    requires '"' !in x
    requires y != [] && y[0] == '"'
    ensures UntilQuote(x + y) == (x, y)
    decreases |x|
  {
    if x == [] {
      assert x + y == y;
    } else {
      assert (x + y)[0] == x[0] != '"';
      assert (x + y)[1..] == x[1..] + y;
      UntilQuoteSplit(x[1..], y);
      assert [x[0]] + x[1..] == x;
    }
  }

  /** Reads the index name, type and id back from a metadata line. */
  function ParseMeta(line: string): Option<(string, string, string)> {
    if !(MetaOpen <= line) then None
    else
      var (index, rest) := UntilQuote(line[|MetaOpen|..]);
      if !(MetaAfterIndex <= rest) then None
      else
        var (docType, rest') := UntilQuote(rest[|MetaAfterIndex|..]);
        if !(MetaAfterType <= rest') then None
        else
          var (id, rest'') := UntilQuote(rest'[|MetaAfterType|..]);
          if rest'' != MetaClose then None else Some((index, docType, id))
  }

  /** After a known prefix, a quote-free field is read up to the quote that follows it. */
  lemma SkipThenSplit(prefix: string, field: string, rest: string)
    requires '"' !in field
    requires rest != [] && rest[0] == '"'
    ensures prefix <= prefix + (field + rest)
    ensures UntilQuote((prefix + (field + rest))[|prefix|..]) == (field, rest)
  {
    assert (prefix + (field + rest))[|prefix|..] == field + rest;
    UntilQuoteSplit(field, rest);
  }

  /** The metadata line carries its three values recoverably as long as none of
      them contains a double quote, which `%` formatting does not escape. */
  lemma MetaLineRoundTrip(index: string, docType: string, id: string)
    requires '"' !in index && '"' !in docType && '"' !in id
    ensures ParseMeta(MetaLine(index, docType, id)) == Some((index, docType, id))
  {
    var tail2 := MetaAfterType + (id + MetaClose);
    var tail1 := MetaAfterIndex + (docType + tail2);
    assert MetaLine(index, docType, id) == MetaOpen + (index + tail1);
    SkipThenSplit(MetaOpen, index, tail1);
    SkipThenSplit(MetaAfterIndex, docType, tail2);
    SkipThenSplit(MetaAfterType, id, MetaClose);
  }

  /** The lines the loop writes for the ids of `order`, two per station. */
  function BulkLines(index: string, docType: string, order: seq<string>, stations: map<string, Station>): seq<Line>
    requires Covers(order, stations)
    decreases |order|
  {
    if order == [] then []
    else
      var id := order[|order| - 1];
      BulkLines(index, docType, order[..|order| - 1], stations)
        + [Meta(MetaLine(index, docType, id)), Body(Doc(stations[id], id))]
  }

  /** The loop of `write_actions_for_bulk`: the lines it writes to the bulk file,
      each without its trailing newline. */
  method WriteActionsForBulk(snapshot: Snapshot, indexName: string, docType: string) returns (lines: seq<Line>)
    requires Covers(snapshot.order, snapshot.stations)
    ensures lines == BulkLines(indexName, docType, snapshot.order, snapshot.stations)
  {
    lines := [];
    for i := 0 to |snapshot.order|
      invariant lines == BulkLines(indexName, docType, snapshot.order[..i], snapshot.stations)
    {
      assert snapshot.order[..i + 1][..i] == snapshot.order[..i];
      var pdvId := snapshot.order[i];
      var pdvForEs := Doc(snapshot.stations[pdvId], pdvId);
      lines := lines + [Meta(MetaLine(indexName, docType, pdvId))];
      lines := lines + [Body(pdvForEs)];
    }
    assert snapshot.order[..|snapshot.order|] == snapshot.order;
  }

  /** Two lines per station, with no location filter: the metadata line for the
      k-th id, then its body with the id added. */
  lemma {:induction false} BulkLinesAt(index: string, docType: string, order: seq<string>, stations: map<string, Station>)
    requires Covers(order, stations)
    ensures var lines := BulkLines(index, docType, order, stations);
      && |lines| == 2 * |order|
      && forall k :: 0 <= k < |order| ==>
           && lines[2 * k] == Meta(MetaLine(index, docType, order[k]))
           && lines[2 * k + 1] == Body(Doc(stations[order[k]], order[k]))
    decreases |order|
  {
    if order != [] {
      var n := |order|;
      var init := order[..n - 1];
      BulkLinesAt(index, docType, init, stations);
      var before := BulkLines(index, docType, init, stations);
      var lines := BulkLines(index, docType, order, stations);
      assert forall i :: 0 <= i < |before| ==> lines[i] == before[i];
      forall k | 0 <= k < n
        ensures lines[2 * k] == Meta(MetaLine(index, docType, order[k]))
        ensures lines[2 * k + 1] == Body(Doc(stations[order[k]], order[k]))
      {
        if k < n - 1 {
          assert init[k] == order[k];
        }
      }
    }
  }
}
