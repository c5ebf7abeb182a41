/**
 * The pure computations of a successful login: which client address to record, and the
 * coarse location string built from the geolocation answer. Both login handlers have their
 * own variant (server.js and routes/auth.js differ in the details).
 */
module LoginHelpers {
  import opened Wrappers
  import opened JsStrings

  /** The request facts the address derivation reads; absent headers are None. */
  datatype Origin = Origin(
    forwardedFor: Option<string>,
    cfConnectingIp: Option<string>,
    remoteAddress: Option<string>,
    reqIp: Option<string>)

  /** The geolocation answer (ipinfo.io's JSON); None when the lookup failed or returned nothing. */
  datatype Geo = Geo(city: Option<string>, country: Option<string>)

  const MappedPrefix := "::ffff:"
  const Fallback := "8.8.8.8"

  predicate IsLoopback(ip: Option<string>)
  {
    ip == Some("::1") || ip == Some("127.0.0.1")
  }

  /** `x-forwarded-for?.split(",")[0]`: the first comma-separated field of the proxy header. */
  function FirstForwarded(o: Origin): Option<string>
  {
    if o.forwardedFor.None? then None else FieldAt(o.forwardedFor.value, ',', 0)
  }

  /**
   * `forwarded || cf-connecting-ip || socket.remoteAddress || req.ip`: the first candidate
   * that is a non-empty string wins; the last one is taken whatever it is.
   */
  function RawClientIp(o: Origin): (ip: Option<string>)
    ensures Truthy(FirstForwarded(o)) ==> ip == FirstForwarded(o)
    ensures !Truthy(FirstForwarded(o)) && Truthy(o.cfConnectingIp) ==> ip == o.cfConnectingIp
    ensures !Truthy(FirstForwarded(o)) && !Truthy(o.cfConnectingIp) && Truthy(o.remoteAddress) ==> ip == o.remoteAddress
    ensures !Truthy(FirstForwarded(o)) && !Truthy(o.cfConnectingIp) && !Truthy(o.remoteAddress) ==> ip == o.reqIp
  {
    var forwarded := FirstForwarded(o);
    if Truthy(forwarded) then forwarded
    else if Truthy(o.cfConnectingIp) then o.cfConnectingIp
    else if Truthy(o.remoteAddress) then o.remoteAddress
    else o.reqIp
  }

  /** Of a proxy chain "client,proxy1,..." the client's own address is taken. */
  lemma ForwardedChainGivesClient(client: string, proxies: string, o: Origin)
    requires client != "" && ',' !in client
    requires o.forwardedFor == Some(client + "," + proxies)
    ensures RawClientIp(o) == Some(client)
  {
    SplitAtFirst(client, ',', proxies);
  }

  /**
   * The live server's address (server.js): a leading "::ffff:" is removed once, then a
   * loopback literal is replaced by the public fallback, so no loopback literal is ever
   * recorded; any other address is kept as derived.
   */
  function ServerClientIp(o: Origin): (ip: Option<string>)
    ensures !IsLoopback(ip)
    ensures ip.None? <==> RawClientIp(o).None?
    ensures var raw := RawClientIp(o);
      raw.Some? && MappedPrefix <= raw.value ==>
        ip == if IsLoopback(Some(raw.value[|MappedPrefix|..])) then Some(Fallback) else Some(raw.value[|MappedPrefix|..])
    ensures var raw := RawClientIp(o);
      raw.Some? && !(MappedPrefix <= raw.value) ==> ip == if IsLoopback(raw) then Some(Fallback) else raw
  {
    var raw := RawClientIp(o);
    var unmapped := if raw.Some? && MappedPrefix <= raw.value then Some(raw.value[|MappedPrefix|..]) else raw;
    if IsLoopback(unmapped) then Some(Fallback) else unmapped
  }

  /**
   * The auth router's address (routes/auth.js): the loopback literals are replaced, but an
   * IPv4-mapped address keeps its "::ffff:" prefix.
   */
  function RouterClientIp(o: Origin): (ip: Option<string>)
    ensures !IsLoopback(ip)
    ensures !IsLoopback(RawClientIp(o)) ==> ip == RawClientIp(o)
    ensures IsLoopback(RawClientIp(o)) ==> ip == Some(Fallback)
  {
    var raw := RawClientIp(o);
    if IsLoopback(raw) then Some(Fallback) else raw
  }

  /** The two variants part on a mapped address: only the live server unmaps it. */
  lemma MappedAddressVariants(a: string, o: Origin)
    requires a != "::1" && a != "127.0.0.1"
    requires o.remoteAddress == Some(MappedPrefix + a)
    requires !Truthy(FirstForwarded(o)) && !Truthy(o.cfConnectingIp)
    ensures ServerClientIp(o) == Some(a)
    ensures RouterClientIp(o) == Some(MappedPrefix + a)
  {
    assert (MappedPrefix + a)[|MappedPrefix|..] == a;
    assert (MappedPrefix + a)[0] == ':' && |MappedPrefix + a| >= 7;
  }

  /** The live server's location: "Unknown" unless the answer has a city or a country. */
  function ServerLocation(geo: Option<Geo>): (location: string)
    ensures location == "Unknown" <==> !(geo.Some? && (Truthy(geo.value.city) || Truthy(geo.value.country)))
    ensures location != "Unknown" ==>
      location == Or(geo.value.city, "Unknown City") + ", " + Or(geo.value.country, "Unknown Country")
  {
    if geo.Some? && (Truthy(geo.value.city) || Truthy(geo.value.country)) then
      var s := Or(geo.value.city, "Unknown City") + ", " + Or(geo.value.country, "Unknown Country");
      assert s[|Or(geo.value.city, "Unknown City")|] == ',';
      assert ',' !in "Unknown";
      s
    else "Unknown"
  }

  /** The auth router's location: "Unknown" unless the answer has a country; a city alone is ignored. */
  function RouterLocation(geo: Option<Geo>): (location: string)
    ensures location == "Unknown" <==> !(geo.Some? && Truthy(geo.value.country))
    ensures location != "Unknown" ==> location == Or(geo.value.city, "Unknown City") + ", " + geo.value.country.value
  {
    if geo.Some? && Truthy(geo.value.country) then
      var s := Or(geo.value.city, "Unknown City") + ", " + geo.value.country.value;
      assert s[|Or(geo.value.city, "Unknown City")|] == ',';
      assert ',' !in "Unknown";
      s
    else "Unknown"
  }

  /** With a city but no country the two variants disagree. */
  lemma CityOnlyVariants(city: string)
    requires city != ""
    ensures ServerLocation(Some(Geo(Some(city), None))) == city + ", Unknown Country"
    ensures RouterLocation(Some(Geo(Some(city), None))) == "Unknown"
  {
  }
}
