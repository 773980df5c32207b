/**
 * The reverse-geocoding stub: an ordered table of latitude/longitude boxes,
 * each with a pool of descriptive addresses; the first box that contains a
 * point supplies its address.
 */
module Regions {

  import opened Wrappers
  import opened Issues

  /** A box with inclusive bounds on both axes and its address pool. */
  datatype Region = Region(lat: Range, lng: Range, addresses: seq<string>)

  predicate Contains(r: Region, lat: real, lng: real)
  {
    InRange(lat, r.lat) && InRange(lng, r.lng)
  }

  const ChengalpattuPool := [
    "Sriperumbudur, Kanchipuram, Tamil Nadu, 603202, India",
    "Kanchipuram, Tamil Nadu, 631502, India",
    "Chengalpattu, Tamil Nadu, 603001, India",
    "Tambaram, Chennai, Tamil Nadu, 600045, India"
  ]

  const ChennaiPool := [
    "T. Nagar, Chennai, Tamil Nadu, 600017, India",
    "Anna Nagar, Chennai, Tamil Nadu, 600040, India",
    "Velachery, Chennai, Tamil Nadu, 600042, India",
    "Adyar, Chennai, Tamil Nadu, 600020, India"
  ]

  const DelhiPool := [
    "Connaught Place, New Delhi, Delhi, 110001, India",
    "Karol Bagh, New Delhi, Delhi, 110005, India",
    "Lajpat Nagar, New Delhi, Delhi, 110024, India",
    "Dwarka, New Delhi, Delhi, 110078, India"
  ]

  /** The application's location database, in lookup order. */
  function LocationDatabase(): (db: seq<Region>)
    ensures |db| == 3 && PoolsNonEmpty(db)
  {
    [
      Region(Range(12.0, 14.0), Range(79.0, 81.0), ChengalpattuPool),
      Region(Range(12.8, 13.2), Range(80.1, 80.3), ChennaiPool),
      Region(Range(28.4, 28.8), Range(77.0, 77.4), DelhiPool)
    ]
  }

  predicate PoolsNonEmpty(db: seq<Region>)
  {
    forall i :: 0 <= i < |db| ==> |db[i].addresses| > 0
  }

  /** The index of the first box, in table order, that contains the point. */
  function FirstRegion(db: seq<Region>, lat: real, lng: real): (r: Option<nat>)
    ensures r.None? <==> forall j :: 0 <= j < |db| ==> !Contains(db[j], lat, lng)
    ensures r.Some? ==> r.value < |db| && Contains(db[r.value], lat, lng)
    ensures r.Some? ==> forall j :: 0 <= j < r.value ==> !Contains(db[j], lat, lng)
  {
    if db == [] then None
    else if Contains(db[0], lat, lng) then Some(0)
    else match FirstRegion(db[1..], lat, lng)
      case None => None
      case Some(k) => Some(k + 1)
  }

  /** `Math.floor(u * n)` for a uniform draw `0 <= u < 1`: always a valid index. */
  function PickIndex(n: nat, u: real): (k: nat)
    requires n > 0 && 0.0 <= u < 1.0
    ensures k < n
  {
    var x := u * n as real;
    assert 0.0 <= x < n as real by {
      assert u * n as real <= 1.0 * n as real;
      assert u * n as real != n as real;
    }
    x.Floor
  }

  /** An address taken from the matched box's pool, or the generic fallback. */
  datatype Address = Regional(text: string) | Generic

  /** The address the lookup yields for a point and a draw `u`. */
  function RegionAddress(db: seq<Region>, lat: real, lng: real, u: real): (a: Address)
    requires PoolsNonEmpty(db) && 0.0 <= u < 1.0
    ensures a.Generic? <==> FirstRegion(db, lat, lng).None?
    ensures a.Regional? ==> a.text in db[FirstRegion(db, lat, lng).value].addresses
  {
    match FirstRegion(db, lat, lng)
    case None => Generic
    case Some(k) => Regional(db[k].addresses[PickIndex(|db[k].addresses|, u)])
  }

  /** The regional address, when there is one, belongs to the pool of the first box containing the point. */
  lemma RegionAddressFromFirstBox(db: seq<Region>, lat: real, lng: real, u: real)
    requires PoolsNonEmpty(db) && 0.0 <= u < 1.0
    ensures RegionAddress(db, lat, lng, u).Generic? <==> forall j :: 0 <= j < |db| ==> !Contains(db[j], lat, lng)
    ensures RegionAddress(db, lat, lng, u).Regional? ==>
      exists k :: 0 <= k < |db| && Contains(db[k], lat, lng) && (forall j :: 0 <= j < k ==> !Contains(db[j], lat, lng))
        && RegionAddress(db, lat, lng, u).text in db[k].addresses
  {
    match FirstRegion(db, lat, lng)
    case None =>
    case Some(k) =>
      assert RegionAddress(db, lat, lng, u).text in db[k].addresses;
  }

  /** `generateDetailedAddress`: scan the table in order and return from the first containing box. */
  method DetailedAddress(db: seq<Region>, lat: real, lng: real, u: real) returns (a: Address)
    requires PoolsNonEmpty(db) && 0.0 <= u < 1.0
    ensures a == RegionAddress(db, lat, lng, u)
  {
    var i := 0;
    while i < |db|
      invariant 0 <= i <= |db|
      invariant forall j :: 0 <= j < i ==> !Contains(db[j], lat, lng)
    {
      var location := db[i];
      if InRange(lat, location.lat) && InRange(lng, location.lng) {
        var randomIndex := PickIndex(|location.addresses|, u);
        return Regional(location.addresses[randomIndex]);
      }
      i := i + 1;
    }
    return Generic;
  }

  /** Every box of the table lies inside the valid coordinate range. */
  lemma DatabaseWithinBounds(lat: real, lng: real)
    ensures forall j :: 0 <= j < |LocationDatabase()| && Contains(LocationDatabase()[j], lat, lng) ==> ValidCoordinate(lat, lng)
  {
  }

  /**
   * The second box lies inside the first, so it never matches first and none
   * of its (distinct) addresses is ever returned.
   */
  lemma ChennaiBoxShadowed(lat: real, lng: real, u: real)
    requires 0.0 <= u < 1.0
    ensures FirstRegion(LocationDatabase(), lat, lng) != Some(1)
    ensures RegionAddress(LocationDatabase(), lat, lng, u).Regional? ==> RegionAddress(LocationDatabase(), lat, lng, u).text !in ChennaiPool
  {
    var db := LocationDatabase();
    if Contains(db[1], lat, lng) {
      assert Contains(db[0], lat, lng);
    }
    match FirstRegion(db, lat, lng)
    case None =>
    case Some(k) =>
      assert k == 0 || k == 2;
      var a := RegionAddress(db, lat, lng, u).text;
      assert a in db[k].addresses;
      assert forall x :: x in ChengalpattuPool ==> x !in ChennaiPool;
      assert forall x :: x in DelhiPool ==> x !in ChennaiPool;
  }
}
