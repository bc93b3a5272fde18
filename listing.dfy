/** The property record as the admin panel and the map page see it once the
    catalogue's normaliser has run, and JavaScript's `Number(...)` coercion of a
    coordinate field. */
module Listing {
  import opened Wrappers

  /** A `latitude`/`longitude` field as stored: missing (`undefined`), JSON `null`,
      something `Number(...)` reads as a finite number (a number or a numeric
      text), or something it reads as NaN or an infinity. */
  datatype Coordinate = Missing | Null | Number(value: real) | NotNumeric

  /** `Number(c)` where it is finite; `None` stands for NaN and the infinities.
      As in JavaScript, `Number(null)` is 0. */
  function ToNumber(c: Coordinate): (r: Option<real>)
    ensures r.Some? <==> c.Null? || c.Number?
    ensures c.Null? ==> r == Some(0.0)
  {
    match c
    case Missing => None
    case Null => Some(0.0)
    case Number(v) => Some(v)
    case NotNumeric => None
  }

  /** A listing. `propertyType` is the source's `type` field; an empty string
      stands for an absent or empty text field. */
  datatype Property = Property(
    id: string,
    title: string,
    price: real,
    location: string,
    city: string,
    address: string,
    propertyType: string,
    images: seq<string>,
    description: string,
    status: string,
    sold: bool,
    dateAdded: string,
    latitude: Coordinate,
    longitude: Coordinate,
    featured: bool,
    opportunity: bool,
    agent: string)

  /** `properties.map((property) => property.id)`. */
  function Ids(ps: seq<Property>): (r: seq<string>)
    ensures |r| == |ps| && forall i :: 0 <= i < |ps| ==> r[i] == ps[i].id
  {
    seq(|ps|, i requires 0 <= i < |ps| => ps[i].id)
  }
}
