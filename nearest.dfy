/**
 * Nearest-region selection: the argmin loops of findNearestServer (main.go:343-355)
 * and getAllFilesHandler (main.go:211-219). The haversine distance is not modelled;
 * the loops receive it as a function `distance` from (client, site) coordinates to a
 * real number, and read it once per site, in the fixed order of Regions.Sites.
 */
module Nearest {
  import opened Wrappers
  import opened Regions

  /**
   * The running minimum's start value, float64(^uint(0) >> 1): the largest Go `int`.
   * On a 64-bit target that is 2^63 - 1, which rounds to 2^63 as a float64; the model
   * takes that value (on a 32-bit target it would be 2^31 - 1).
   */
  const Sentinel: real := 9223372036854775808.0

  /** The distance from `client` to each site, in site order. */
  function Distances(client: Coord, distance: (Coord, Coord) -> real): (ds: seq<real>)
    ensures |ds| == |Sites|
    ensures forall i :: 0 <= i < |Sites| ==> ds[i] == distance(client, Sites[i].at)
  {
    seq(|Sites|, i requires 0 <= i < |Sites| => distance(client, Sites[i].at))
  }

  /**
   * Reference definition of the scan: the index the loop holds after reading `ds`,
   * replacing its choice only on a strictly smaller distance, starting from Sentinel.
   */
  function Best(ds: seq<real>): (k: Option<nat>)
    ensures k.Some? ==> k.value < |ds| && ds[k.value] < Sentinel
    decreases |ds|
  {
    if ds == [] then None
    else
      var last := |ds| - 1;
      match Best(ds[..last])
      case None => if ds[last] < Sentinel then Some(last) else None
      case Some(j) => if ds[last] < ds[j] then Some(last) else Some(j)
  }

  /** `k` is the first position of a minimum of `ds`, and that minimum is below Sentinel. */
  ghost predicate IsFirstMinimum(ds: seq<real>, k: nat)
  {
    && k < |ds|
    && ds[k] < Sentinel
    && (forall i :: 0 <= i < |ds| ==> ds[k] <= ds[i])
    && (forall i :: 0 <= i < k ==> ds[k] < ds[i])
  }

  /** The scan finds nothing exactly when no distance is below Sentinel, and otherwise the first minimum. */
  lemma {:induction false} BestIsFirstMinimum(ds: seq<real>)
    ensures Best(ds).None? <==> forall i :: 0 <= i < |ds| ==> ds[i] >= Sentinel
    ensures Best(ds).Some? ==> IsFirstMinimum(ds, Best(ds).value)
    decreases |ds|
  {
    if ds != [] {
      var last := |ds| - 1;
      var init := ds[..last];
      BestIsFirstMinimum(init);
      assert forall i :: 0 <= i < last ==> init[i] == ds[i];
    }
  }

  /** The first minimum is unique, so the scan is determined by the distances alone. */
  lemma FirstMinimumIsUnique(ds: seq<real>, k: nat, k': nat)
    requires IsFirstMinimum(ds, k) && IsFirstMinimum(ds, k')
    ensures k == k'
  {
  }

  /** The region name the handlers report for a scan result: "" when nothing was chosen. */
  function RegionName(k: Option<nat>): (name: string)
    ensures name == "" <==> k.None? || k.value >= |Sites|
    ensures k.Some? && k.value < |Sites| ==> name == Sites[k.value].name
  {
    match k
    case None => ""
    case Some(i) => if i < |Sites| then Sites[i].name else ""
  }

  /**
   * When the client stands on a site, the self-distance is zero and every other site is
   * at a positive distance, that site is chosen, at distance zero.
   */
  lemma {:induction false} ClientOnSiteIsChosen(client: Coord, distance: (Coord, Coord) -> real, s: nat)
    requires s < |Sites| && Sites[s].at == client
    requires distance(client, client) == 0.0
    requires forall i :: 0 <= i < |Sites| && Sites[i].at != client ==> distance(client, Sites[i].at) > 0.0
    ensures Best(Distances(client, distance)) == Some(s)
    ensures Distances(client, distance)[s] == 0.0
  {
    var ds := Distances(client, distance);
    BestIsFirstMinimum(ds);
    assert ds[s] == 0.0;
  }

  /** The nearest-region loop of getAllFilesHandler; "" means no distance beat Sentinel. */
  method NearestRegion(client: Coord, distance: (Coord, Coord) -> real) returns (nearestRegion: string)
    ensures nearestRegion == RegionName(Best(Distances(client, distance)))
    ensures nearestRegion == "" <==> forall i :: 0 <= i < |Sites| ==> distance(client, Sites[i].at) >= Sentinel
    ensures nearestRegion != "" ==>
      exists k :: 0 <= k < |Sites| && Sites[k].name == nearestRegion && IsFirstMinimum(Distances(client, distance), k)
  {
    ghost var ds := Distances(client, distance);
    ghost var chosen: Option<nat> := None;
    nearestRegion := "";
    var shortestDistance := Sentinel;
    var i := 0;
    while i < |Sites|
      invariant 0 <= i <= |Sites|
      invariant chosen == Best(ds[..i])
      invariant chosen.None? ==> nearestRegion == "" && shortestDistance == Sentinel
      invariant chosen.Some? ==> nearestRegion == Sites[chosen.value].name && shortestDistance == ds[chosen.value]
    {
      assert ds[..i + 1][..i] == ds[..i];
      var d := distance(client, Sites[i].at);
      if d < shortestDistance {
        shortestDistance := d;
        nearestRegion := Sites[i].name;
        chosen := Some(i);
      }
      i := i + 1;
    }
    assert ds[..i] == ds;
    BestIsFirstMinimum(ds);
  }

  /**
   * findNearestServer after the client's coordinates have been looked up (None when the
   * lookup failed): the nearest region and that region's own entry of `urls`, "" when
   * the region has no entry.
   */
  method FindNearestServer(clientCoordinates: Option<Coord>, urls: map<string, string>, distance: (Coord, Coord) -> real)
    returns (nearestServer: string, nearestURL: string)
    ensures clientCoordinates.None? ==> nearestServer == "" && nearestURL == ""
    ensures clientCoordinates.Some? ==>
      var chosen := Best(Distances(clientCoordinates.value, distance));
      && nearestServer == RegionName(chosen)
      && nearestURL == (if chosen.Some? then MapGet(urls, nearestServer) else "")
    ensures clientCoordinates.Some? && nearestServer != "" ==>
      exists k :: 0 <= k < |Sites| && Sites[k].name == nearestServer
        && IsFirstMinimum(Distances(clientCoordinates.value, distance), k)
  {
    if clientCoordinates.None? {
      return "", "";
    }
    var client := clientCoordinates.value;
    ghost var ds := Distances(client, distance);
    ghost var chosen: Option<nat> := None;
    nearestServer, nearestURL := "", "";
    var shortestDistance := Sentinel;
    var i := 0;
    while i < |Sites|
      invariant 0 <= i <= |Sites|
      invariant chosen == Best(ds[..i])
      invariant chosen.None? ==> nearestServer == "" && nearestURL == "" && shortestDistance == Sentinel
      invariant chosen.Some? ==>
        && nearestServer == Sites[chosen.value].name
        && nearestURL == MapGet(urls, nearestServer)
        && shortestDistance == ds[chosen.value]
    {
      assert ds[..i + 1][..i] == ds[..i];
      var d := distance(client, Sites[i].at);
      if d < shortestDistance {
        shortestDistance := d;
        nearestServer := Sites[i].name;
        nearestURL := MapGet(urls, nearestServer);
        chosen := Some(i);
      }
      i := i + 1;
    }
    assert ds[..i] == ds;
    BestIsFirstMinimum(ds);
  }
}
