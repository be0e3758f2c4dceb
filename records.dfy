/** The data the pipeline moves around: the raw station records the XML parser
    produces (attribute bags whose keys may be missing), the normalised station,
    the snapshot keyed by station id, and the index-write actions. */
module Records {
  import opened Wrappers

  /** The two exceptions the normaliser can raise: a missing dictionary key, and
      `float()` refusing a text. */
  datatype Error = KeyError(key: string) | ValueError(text: string)

  /** An XML element's attributes as the parser gives them: '@nom', '@valeur', ... */
  type Attributes = map<string, string>

  /** A station's `prix` element(s): the parser yields one dictionary when the
      station lists one fuel and a list of dictionaries when it lists several. */
  datatype PriceSection = Single(entry: Attributes) | Many(entries: seq<Attributes>)

  /** One `pdv` element. `None` is a key the element does not have. */
  datatype RawPdv = RawPdv(
    id: Option<string>,              // '@id'
    cp: Option<string>,              // '@cp'
    latitude: Option<string>,        // '@latitude'
    longitude: Option<string>,       // '@longitude'
    adresse: Option<string>,         // 'adresse'
    ville: Option<string>,           // 'ville'
    ouverture: Option<Attributes>,   // 'ouverture', holding '@saufjour'
    fermeture: bool,                 // whether the element has a 'fermeture' key
    prix: Option<PriceSection>)      // 'prix'

  /** Fuel name to price in euros. */
  type Prices = map<string, real>

  /** A normalised station: the body stored under its id in the snapshot.
      `localisation` holds the keys "lat" and "lon" that were filled in;
      `prix` is `None` when the body has no 'prix' key. */
  datatype Station = Station(
    cp: string,
    localisation: map<string, real>,
    adresse: string,
    saufjour: string,
    prix: Option<Prices>,
    ville: string)

  /** The dictionary of stations, with its keys in insertion order (the order in
      which Python iterates, dumps and reloads it). */
  datatype Snapshot = Snapshot(order: seq<string>, stations: map<string, Station>) {
    ghost predicate Valid() {
      && (forall i, j :: 0 <= i < j < |order| ==> order[i] != order[j])
      && (forall k :: k in stations <==> k in order)
    }
  }

  const EmptySnapshot: Snapshot := Snapshot([], map[])

  /** A station body copied, with the station id added under 'id'. */
  datatype Doc = Doc(body: Station, id: string)

  /** One action for the bulk helper: '_index', '_type', '_id' and '_source'. */
  datatype Action = Action(index: string, docType: string, id: string, source: Doc)

  /** One line of a bulk-request file: the metadata line, written out in full, or
      the JSON rendering of a document, left abstract. */
  datatype Line = Meta(text: string) | Body(doc: Doc)
}
