/**
 * The fixed deployment: the three regions, their storage servers (storageServers,
 * main.go:18-22) and their coordinates (serverCoordinates, main.go:198-202 and
 * main.go:330-334), and the three ways main.go moves between a table row's columns
 * and region names. Go ranges over these maps in an unspecified order; the model
 * fixes the order in which they are declared.
 */
module Regions {
  import opened Wrappers

  const Singapore: string := "Singapore"
  const NewYork: string := "New York"
  const London: string := "London"

  /** A storage node: the region it serves and the base URL of its HTTP API. */
  datatype StorageServer = StorageServer(name: string, baseURL: string)

  const StorageServers: seq<StorageServer> := [
    StorageServer(Singapore, "http://35.197.153.160:5001"),
    StorageServer(NewYork, "http://34.174.158.135:5002"),
    StorageServer(London, "http://34.147.235.178:5003")
  ]

  /** Latitude and longitude in degrees. */
  datatype Coord = Coord(lat: real, lon: real)

  /** A candidate region for nearest-region selection. */
  datatype Site = Site(name: string, at: Coord)

  const Sites: seq<Site> := [
    Site(Singapore, Coord(1.3521, 103.8198)),
    Site(NewYork, Coord(40.7128, -74.0060)),
    Site(London, Coord(51.5074, -0.1278))
  ]

  /** The three URL columns of one row of the file_urls table. */
  datatype Columns = Columns(singaporeURL: string, newyorkURL: string, londonURL: string)

  /** getFileFromDatabase: singapore_url, newyork_url, london_url become the values of the three region keys. */
  function RegionUrls(c: Columns): (m: map<string, string>)
    ensures m.Keys == {Singapore, NewYork, London}
  {
    map[Singapore := c.singaporeURL, NewYork := c.newyorkURL, London := c.londonURL]
  }

  /**
   * uploadHandler's insert arguments: fileURLs["Singapore"], fileURLs["New York"],
   * fileURLs["London"]. A map over exactly the three regions is recovered by reading
   * the row back.
   */
  function ColumnsOf(m: map<string, string>): (c: Columns)
    ensures m.Keys == {Singapore, NewYork, London} ==> RegionUrls(c) == m
  {
    Columns(MapGet(m, Singapore), MapGet(m, NewYork), MapGet(m, London))
  }

  /**
   * getAllFilesHandler's switch on the nearest region; a region it does not list leaves
   * the URL "". It picks the same URL as getFileFromDatabase's map for every name.
   */
  function ColumnFor(region: string, c: Columns): (url: string)
    ensures url == MapGet(RegionUrls(c), region)
  {
    if region == Singapore then c.singaporeURL
    else if region == NewYork then c.newyorkURL
    else if region == London then c.londonURL
    else ""
  }

  /** Every candidate site is served by the storage server of the same name, in the same position. */
  lemma SitesMatchServers()
    ensures |Sites| == |StorageServers| == 3
    ensures forall i :: 0 <= i < |Sites| ==> Sites[i].name == StorageServers[i].name
    ensures forall i, j :: 0 <= i < j < |Sites| ==> Sites[i].name != Sites[j].name
  {
  }

  /** Reading a row back as a map and extracting the insert arguments again gives the same row. */
  lemma ColumnsRoundTrip(c: Columns)
    ensures ColumnsOf(RegionUrls(c)) == c
  {
  }
}
