/** The listing side of the properties map page (js/map-page.js): the picture a
    listing is shown with, the geographic view of a listing, the filter panel, the
    city and type option lists and the preview list under the map. The map widget
    itself (loading, markers, clustering, bounds) is not part of this model. */
module MapPage {
  import opened Wrappers
  import opened Seqs
  import opened Text
  import opened Listing

  /** The stock photo shown for a listing without a usable first image. */
  const MapPlaceholderImage: string :=
    "https://images.unsplash.com/photo-1560518883-ce09059eeffa?auto=format&fit=crop&w=1200&q=80"

  /** `getMapPropertyImage`: the first image when it is a non-empty string, the
      placeholder otherwise. The picture is never empty and is one of the
      listing's own images or the placeholder. */
  function MapPropertyImage(p: Property): (src: string)
    ensures src != []
    ensures src == MapPlaceholderImage || src in p.images
    ensures |p.images| > 0 && p.images[0] != [] ==> src == p.images[0]
    ensures (|p.images| == 0 || p.images[0] == []) ==> src == MapPlaceholderImage
  {
    if |p.images| > 0 && p.images[0] != [] then p.images[0] else MapPlaceholderImage
  }

  /** A listing as the map page sees it: `record` is the listing with the city and
      address fallbacks applied, `latitude`/`longitude` are the coerced coordinates
      (`None` where the page holds NaN) and `hasCoordinates` says whether it can be
      put on the map. */
  datatype GeoProperty = GeoProperty(
    record: Property,
    latitude: Option<real>,
    longitude: Option<real>,
    hasCoordinates: bool)

  /** `value || fallback` on text. */
  function OrElse(value: string, fallback: string): string {
    if value != [] then value else fallback
  }

  /** The listing with an empty city or address replaced by its location; every
      other field is kept. */
  function WithPlaceFallbacks(p: Property): (q: Property)
    ensures q.city == (if p.city != [] then p.city else p.location)
    ensures q.address == (if p.address != [] then p.address else p.location)
    ensures q.(city := p.city, address := p.address) == p
  {
    p.(city := OrElse(p.city, p.location), address := OrElse(p.address, p.location))
  }

  /** `toGeoProperty` as written: the coordinates are coerced with `Number(...)` and
      a listing is located when both are finite, so a JSON `null` coordinate,
      which `Number` turns into 0, counts as a coordinate. */
  function ToGeoPropertyAsWritten(p: Property): (g: GeoProperty)
    ensures g.record == WithPlaceFallbacks(p)
    ensures g.latitude == ToNumber(p.latitude) && g.longitude == ToNumber(p.longitude)
    ensures g.hasCoordinates <==> (
      && (p.latitude.Null? || p.latitude.Number?)
      && (p.longitude.Null? || p.longitude.Number?))
  {
    var latitude := ToNumber(p.latitude);
    var longitude := ToNumber(p.longitude);
    GeoProperty(WithPlaceFallbacks(p), latitude, longitude, latitude.Some? && longitude.Some?)
  }

  /** A listing saved with both coordinate fields left blank (the admin form stores
      them as `null`) is put on the map at latitude 0, longitude 0. */
  lemma BlankCoordinatesPlacedAtOrigin(p: Property)
    requires p.latitude == Null && p.longitude == Null
    ensures ToGeoPropertyAsWritten(p).hasCoordinates
    ensures ToGeoPropertyAsWritten(p).latitude == Some(0.0)
    ensures ToGeoPropertyAsWritten(p).longitude == Some(0.0)
  {
  }

  /** A coordinate the page can place: a stored number or numeric text, never `null`. */
  function Placeable(c: Coordinate): (r: Option<real>)
    ensures r.Some? <==> c.Number?
    ensures r.Some? ==> ToNumber(c) == r
  {
    if c.Number? then Some(c.value) else None
  }

  /** `toGeoProperty` as intended: a listing is located exactly when both of its
      coordinate fields hold numbers, and a located listing always carries both
      coordinates. */
  function ToGeoProperty(p: Property): (g: GeoProperty)
    ensures g.record == WithPlaceFallbacks(p)
    ensures g.hasCoordinates <==> p.latitude.Number? && p.longitude.Number?
    ensures g.hasCoordinates <==> g.latitude.Some? && g.longitude.Some?
    ensures g.latitude.Some? ==> g.latitude == ToNumber(p.latitude)
    ensures g.longitude.Some? ==> g.longitude == ToNumber(p.longitude)
  {
    var latitude := Placeable(p.latitude);
    var longitude := Placeable(p.longitude);
    GeoProperty(WithPlaceFallbacks(p), latitude, longitude, latitude.Some? && longitude.Some?)
  }

  /** The two readings agree on every listing without a `null` coordinate. */
  lemma ToGeoPropertyAgrees(p: Property)
    requires !p.latitude.Null? && !p.longitude.Null?
    ensures ToGeoProperty(p) == ToGeoPropertyAsWritten(p)
  {
    match p.latitude
    case Number(_) =>
    case Missing =>
    case NotNumeric =>
  }

  /** `propertiesRaw.map(toGeoProperty)`, with `toGeoProperty` as written. */
  function GeoCatalogue(raw: seq<Property>): (gs: seq<GeoProperty>)
    ensures |gs| == |raw| && forall i :: 0 <= i < |raw| ==> gs[i] == ToGeoPropertyAsWritten(raw[i])
  {
    seq(|raw|, i requires 0 <= i < |raw| => ToGeoPropertyAsWritten(raw[i]))
  }

  /** The catalogue as the map was meant to see it: every listing through the
      corrected `ToGeoProperty`. */
  function GeoCatalogueIntended(raw: seq<Property>): (gs: seq<GeoProperty>)
    ensures |gs| == |raw| && forall i :: 0 <= i < |raw| ==> gs[i] == ToGeoProperty(raw[i])
  {
    seq(|raw|, i requires 0 <= i < |raw| => ToGeoProperty(raw[i]))
  }

  /** `Number.MAX_SAFE_INTEGER`. */
  const MaxSafeInteger: real := 9007199254740991.0

  /** The maximum price box: left empty, or holding text that `Number` reads as the
      given finite value (`None` where it reads NaN). */
  datatype PriceBox = EmptyBox | Entered(value: Option<real>)

  /** `Number(priceInput.value || Number.MAX_SAFE_INTEGER)`; `None` stands for NaN. */
  function MaxPrice(box: PriceBox): (max: Option<real>)
    ensures box.EmptyBox? ==> max == Some(MaxSafeInteger)
    ensures box.Entered? ==> max == box.value
  {
    match box
    case EmptyBox => Some(MaxSafeInteger)
    case Entered(value) => value
  }

  /** The filter panel: the selected city and type (empty for "all") and the price box. */
  datatype Filters = Filters(city: string, propertyType: string, price: PriceBox)

  /** The predicate handed to `properties.filter`. A comparison with NaN is false,
      so a box read as NaN admits nothing. */
  predicate Matches(f: Filters, g: GeoProperty) {
    && g.hasCoordinates
    && (f.city == [] || g.record.city == f.city)
    && (f.propertyType == [] || g.record.propertyType == f.propertyType)
    && MaxPrice(f.price).Some? && g.record.price <= MaxPrice(f.price).value
  }

  /** `getFilteredProperties`: exactly the catalogue's listings that are located, in
      the selected city and of the selected type (when one is selected) and no
      dearer than the maximum price. */
  function FilteredProperties(f: Filters, gs: seq<GeoProperty>): (r: seq<GeoProperty>)
    ensures forall g :: g in r ==> g in gs && g.hasCoordinates
    ensures forall g :: g in r && f.city != [] ==> g.record.city == f.city
    ensures forall g :: g in r && f.propertyType != [] ==> g.record.propertyType == f.propertyType
    ensures forall g :: g in r ==> MaxPrice(f.price).Some? && g.record.price <= MaxPrice(f.price).value
    ensures forall g :: g in gs && Matches(f, g) ==> g in r
  {
    Filter(gs, g => Matches(f, g))
  }

  /** The filter keeps the catalogue's order and only drops listings. */
  lemma FilteredIsSubsequence(f: Filters, gs: seq<GeoProperty>)
    ensures IsSubsequence(FilteredProperties(f, gs), gs)
  {
    FilterIsSubsequence(gs, g => Matches(f, g));
  }

  /** An empty price box filters exactly as a box holding `MAX_SAFE_INTEGER`. */
  lemma EmptyPriceBoxIsMaxSafeInteger(f: Filters, gs: seq<GeoProperty>)
    ensures FilteredProperties(f.(price := EmptyBox), gs)
         == FilteredProperties(f.(price := Entered(Some(MaxSafeInteger))), gs)
  {
    var empty := f.(price := EmptyBox);
    var safe := f.(price := Entered(Some(MaxSafeInteger)));
    FilterCongruent(gs, g => Matches(empty, g), g => Matches(safe, g));
  }

  /** With no city, no type and an empty price box, the map shows every located
      listing priced up to `MAX_SAFE_INTEGER`. */
  lemma UnfilteredShowsLocated(gs: seq<GeoProperty>)
    ensures FilteredProperties(Filters([], [], EmptyBox), gs)
         == Filter(gs, (g: GeoProperty) => g.hasCoordinates && g.record.price <= MaxSafeInteger)
  {
    var f := Filters([], [], EmptyBox);
    FilterCongruent(gs, g => Matches(f, g), (g: GeoProperty) => g.hasCoordinates && g.record.price <= MaxSafeInteger);
  }

  /** A price box that `Number` reads as NaN empties the map. */
  lemma NotNumericPriceShowsNothing(f: Filters, gs: seq<GeoProperty>)
    requires f.price == Entered(None)
    ensures FilteredProperties(f, gs) == []
  {
    FilterNone(gs, g => Matches(f, g));
  }

  /** The cities of the catalogue, in catalogue order. */
  function Cities(gs: seq<GeoProperty>): (cs: seq<string>)
    ensures |cs| == |gs| && forall i :: 0 <= i < |gs| ==> cs[i] == gs[i].record.city
  {
    seq(|gs|, i requires 0 <= i < |gs| => gs[i].record.city)
  }

  /** The types of the catalogue, in catalogue order. */
  function Types(gs: seq<GeoProperty>): (ts: seq<string>)
    ensures |ts| == |gs| && forall i :: 0 <= i < |gs| ==> ts[i] == gs[i].record.propertyType
  {
    seq(|gs|, i requires 0 <= i < |gs| => gs[i].record.propertyType)
  }

  predicate NonEmptyText(s: string) {
    s != []
  }

  /** The city options: `[...new Set(cities.filter(Boolean))].sort()`. Each
      non-empty city of the catalogue is offered exactly once, in ascending order,
      and nothing else is offered. */
  function CityOptions(gs: seq<GeoProperty>): (r: seq<string>)
    ensures Distinct(r) && Sorted(r)
    ensures [] !in r
    ensures forall c :: c in r ==> exists i :: 0 <= i < |gs| && gs[i].record.city == c
    ensures forall i :: 0 <= i < |gs| && gs[i].record.city != [] ==> gs[i].record.city in r
  {
    var distinct := Dedup(Filter(Cities(gs), NonEmptyText));
    var r := SortStrings(distinct);
    DistinctPermutation(distinct, r);
    assert forall c :: c in r ==> c in distinct by {
      forall c | c in r ensures c in distinct {
        assert c in multiset(r);
      }
    }
    assert forall c :: c in distinct ==> c in r by {
      forall c | c in distinct ensures c in r {
        assert c in multiset(distinct);
      }
    }
    forall i | 0 <= i < |gs| && gs[i].record.city != [] ensures gs[i].record.city in r {
      assert Cities(gs)[i] in Cities(gs);
    }
    r
  }

  /** The type options: `[...new Set(types)].sort()`. Each type of the catalogue is
      offered exactly once, in ascending order, and nothing else is offered. */
  function TypeOptions(gs: seq<GeoProperty>): (r: seq<string>)
    ensures Distinct(r) && Sorted(r)
    ensures forall t :: t in r ==> exists i :: 0 <= i < |gs| && gs[i].record.propertyType == t
    ensures forall i :: 0 <= i < |gs| ==> gs[i].record.propertyType in r
  {
    var distinct := Dedup(Types(gs));
    var r := SortStrings(distinct);
    DistinctPermutation(distinct, r);
    assert forall t :: t in r ==> t in distinct by {
      forall t | t in r ensures t in distinct {
        assert t in multiset(r);
      }
    }
    assert forall t :: t in distinct ==> t in r by {
      forall t | t in distinct ensures t in r {
        assert t in multiset(distinct);
      }
    }
    forall i | 0 <= i < |gs| ensures gs[i].record.propertyType in r {
      assert Types(gs)[i] in Types(gs);
    }
    r
  }

  /** The number of listings the preview list shows. */
  const PreviewLimit: nat := 6

  /** What a preview card shows of a listing. */
  datatype PreviewCard = PreviewCard(id: string, title: string, image: string, city: string, price: real)

  function Card(g: GeoProperty): PreviewCard {
    PreviewCard(g.record.id, g.record.title, MapPropertyImage(g.record), g.record.city, g.record.price)
  }

  /** The preview under the map: the count label and the cards. */
  datatype Preview = Preview(total: nat, cards: seq<PreviewCard>)

  /** `renderPreviewList`: the label counts every filtered listing, and cards are
      shown for the first six of them, in order. */
  function RenderPreviewList(items: seq<GeoProperty>): (v: Preview)
    ensures v.total == |items|
    ensures |v.cards| <= PreviewLimit
    ensures |v.cards| == if |items| < PreviewLimit then |items| else PreviewLimit
    ensures forall i :: 0 <= i < |v.cards| ==> v.cards[i] == Card(items[i])
  {
    var shown := if |items| < PreviewLimit then items else items[..PreviewLimit];
    Preview(|items|, seq(|shown|, i requires 0 <= i < |shown| => Card(shown[i])))
  }

  /** What the page shows for a catalogue under a choice of filters. */
  function PreviewFor(f: Filters, raw: seq<Property>): (v: Preview)
    ensures v.total <= |raw|
  {
    RenderPreviewList(FilteredProperties(f, GeoCatalogue(raw)))
  }

  /** The preview over the corrected catalogue. */
  function PreviewForIntended(f: Filters, raw: seq<Property>): (v: Preview)
    ensures v.total <= |raw|
  {
    RenderPreviewList(FilteredProperties(f, GeoCatalogueIntended(raw)))
  }

  /** Every card is drawn from a catalogue entry that passes the filters. */
  lemma CardsPassFilters(f: Filters, gs: seq<GeoProperty>)
    ensures forall c :: c in RenderPreviewList(FilteredProperties(f, gs)).cards ==>
      exists j :: 0 <= j < |gs| && Matches(f, gs[j]) && Card(gs[j]) == c
  {
    var items := FilteredProperties(f, gs);
    var cards := RenderPreviewList(items).cards;
    forall c | c in cards ensures exists j :: 0 <= j < |gs| && Matches(f, gs[j]) && Card(gs[j]) == c {
      var i :| 0 <= i < |cards| && cards[i] == c;
      assert items[i] in items;
      var j :| 0 <= j < |gs| && gs[j] == items[i];
    }
  }

  /** As written, every card under the map is a listing of the catalogue whose
      coordinate fields each hold a number or `null`, and whose price is within
      the box. */
  lemma PreviewShowsOnlyLocated(f: Filters, raw: seq<Property>)
    ensures forall c :: c in PreviewFor(f, raw).cards ==>
      exists p :: p in raw && p.id == c.id
                  && (p.latitude.Number? || p.latitude.Null?) && (p.longitude.Number? || p.longitude.Null?)
                  && MaxPrice(f.price).Some? && p.price <= MaxPrice(f.price).value
  {
    var gs := GeoCatalogue(raw);
    CardsPassFilters(f, gs);
    forall c | c in PreviewFor(f, raw).cards
      ensures exists p :: p in raw && p.id == c.id
                          && (p.latitude.Number? || p.latitude.Null?) && (p.longitude.Number? || p.longitude.Null?)
                          && MaxPrice(f.price).Some? && p.price <= MaxPrice(f.price).value
    {
      var j :| 0 <= j < |gs| && Matches(f, gs[j]) && Card(gs[j]) == c;
      assert raw[j] in raw;
    }
  }

  /** With the corrected reading, every card under the map is a listing of the
      catalogue whose two coordinate fields hold numbers and whose price is within
      the box. */
  lemma PreviewShowsOnlyLocatedIntended(f: Filters, raw: seq<Property>)
    ensures forall c :: c in PreviewForIntended(f, raw).cards ==>
      exists p :: p in raw && p.id == c.id && p.latitude.Number? && p.longitude.Number?
                  && MaxPrice(f.price).Some? && p.price <= MaxPrice(f.price).value
  {
    var gs := GeoCatalogueIntended(raw);
    CardsPassFilters(f, gs);
    forall c | c in PreviewForIntended(f, raw).cards
      ensures exists p :: p in raw && p.id == c.id && p.latitude.Number? && p.longitude.Number?
                          && MaxPrice(f.price).Some? && p.price <= MaxPrice(f.price).value
    {
      var j :| 0 <= j < |gs| && Matches(f, gs[j]) && Card(gs[j]) == c;
      assert raw[j] in raw;
    }
  }

  /** A listing saved with blank coordinates, under no filter: the page as written
      counts it and shows its card; the corrected reading leaves it off the map. */
  lemma BlankCoordinatesShownOnMap(p: Property)
    requires p.latitude == Null && p.longitude == Null && p.price <= MaxSafeInteger
    ensures PreviewFor(Filters([], [], EmptyBox), [p]).total == 1
    ensures |PreviewFor(Filters([], [], EmptyBox), [p]).cards| == 1
    ensures PreviewForIntended(Filters([], [], EmptyBox), [p]).total == 0
  {
    var f := Filters([], [], EmptyBox);
    var g := GeoCatalogue([p])[0];
    assert Matches(f, g);
    assert [p][1..] == [];
    assert GeoCatalogue([p]) == [g];
    assert FilteredProperties(f, [g]) == [g];
    var h := GeoCatalogueIntended([p])[0];
    assert !Matches(f, h);
    assert GeoCatalogueIntended([p]) == [h];
    assert FilteredProperties(f, [h]) == [];
  }
}
