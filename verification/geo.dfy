/**
 Geo attributes attached to a tracked attacker IP.

 The GeoLite2 lookup itself is a foreign library: it is modelled as an
 optional function from an IP to an optional city record, `None` meaning
 that the database has not finished loading. The random fallback position
 is a parameter, since it comes from `Math.random`.
 */
module Geo {

  datatype Option<+T> = None | Some(value: T)

  /** The `location` part of a GeoLite2 city record; `latitude` is `None`
      when it is not a number. */
  datatype Location = Location(latitude: Option<real>, longitude: real)

  /** What `cityLookup.get(ip)` returns when it finds something; the
      English city and country names may be absent. */
  datatype GeoRecord = GeoRecord(location: Option<Location>, city: Option<string>, country: Option<string>)

  /** The attributes an entry carries from creation on. */
  datatype Attributes = Attributes(lat: real, lon: real, city: string, country: string)

  const UNKNOWN: string := "Unknown"

  /** JavaScript's `name || "Unknown"`: a missing or empty name is falsy. */
  function Label(name: Option<string>): (r: string)
    ensures r != ""
    ensures name.Some? && name.value != "" ==> r == name.value
    ensures name.None? || name.value == "" ==> r == UNKNOWN
  {
    if name.Some? && name.value != "" then name.value else UNKNOWN
  }

  /** The record has a location whose latitude is a number. */
  predicate Located(rec: Option<GeoRecord>) {
    rec.Some? && rec.value.location.Some? && rec.value.location.value.latitude.Some?
  }

  /** The record the database gives for `ip`, or `None` when the database is
      not loaded or has no record. */
  function Lookup(db: Option<string -> Option<GeoRecord>>, ip: string): Option<GeoRecord> {
    if db.Some? then db.value(ip) else None
  }

  /** Attributes for a newly seen IP: the database position and names when
      the record is located, otherwise the fallback position with
      "Unknown" labels. */
  function GeoForIp(db: Option<string -> Option<GeoRecord>>, ip: string, fallback: (real, real)): (a: Attributes)
    ensures a.city != "" && a.country != ""
    ensures Located(Lookup(db, ip)) ==>
      var loc := db.value(ip).value.location.value;
      a.lat == loc.latitude.value && a.lon == loc.longitude
    ensures Located(Lookup(db, ip)) ==>
      a.city == Label(db.value(ip).value.city) && a.country == Label(db.value(ip).value.country)
    ensures !Located(Lookup(db, ip)) ==> a == Attributes(fallback.0, fallback.1, UNKNOWN, UNKNOWN)
  {
    var rec := Lookup(db, ip);
    if Located(rec) then
      var loc := rec.value.location.value;
      Attributes(loc.latitude.value, loc.longitude, Label(rec.value.city), Label(rec.value.country))
    else
      Attributes(fallback.0, fallback.1, UNKNOWN, UNKNOWN)
  }
}
