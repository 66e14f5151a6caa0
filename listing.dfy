/**
 * The two read paths: getAllFilesHandler (main.go:180-264), which projects every row
 * of the table onto the URL of the client's nearest region, and getFileHandler
 * (main.go:267-308), which answers for one filename. The geolocation service is a
 * function `locate` from an address to coordinates (None when the lookup fails), and
 * the rows of SELECT ... FROM file_urls arrive as a sequence in the order the driver
 * returns them.
 */
module Listing {
  import opened Wrappers
  import opened Regions
  import opened ClientAddress
  import opened Nearest
  import opened Database
  import opened Replication

  /** One row of the result set as rows.Scan sees it. */
  datatype Row =
    | Scanned(filename: string, columns: Columns)
    | ScanFailed

  /** One element of the JSON array: {"filename": ..., "url": ...}. */
  datatype Entry = Entry(filename: string, url: string)

  /** Response of the list handler. */
  datatype ListResponse =
    | Files(files: seq<Entry>)
    | QueryFailed       // 500: the SELECT failed
    | LocationFailed    // 500: the client's coordinates could not be determined
    | NoNearestRegion   // 500: no region was closer than the sentinel
    | RowsFailed        // 500: rows.Err() reported an error after the iteration

  /** Response of the single-file handler. */
  datatype FileResponse =
    | Located(filename: string, region: string, url: string)
    | MissingFilename   // 400
    | NotFound          // 404: no row for the filename, or the query failed
    | NoSuitableServer  // 500: no nearest region (lookup failed, or nothing beat the sentinel)

  /** The entry a scanned row contributes for `region`. */
  function EntryOf(filename: string, columns: Columns, region: string): (e: Entry)
    ensures e.filename == filename
    ensures e.url == MapGet(RegionUrls(columns), region)
  {
    Entry(filename, ColumnFor(region, columns))
  }

  /** Reference definition of the list: one entry per scanned row, in row order, all for the same region. */
  function Project(rows: seq<Row>, region: string): (files: seq<Entry>)
    ensures |files| <= |rows|
    decreases |rows|
  {
    if rows == [] then []
    else
      var init := Project(rows[..|rows| - 1], region);
      match rows[|rows| - 1]
      case ScanFailed => init
      case Scanned(filename, columns) => init + [EntryOf(filename, columns, region)]
  }

  /** The projection distributes over concatenation, so it keeps the relative order of rows. */
  lemma {:induction false} ProjectAppend(a: seq<Row>, b: seq<Row>, region: string)
    ensures Project(a + b, region) == Project(a, region) + Project(b, region)
    decreases |b|
  {
    if b == [] {
      assert a + b == a;
    } else {
      var last := |b| - 1;
      assert (a + b)[..|a + b| - 1] == a + b[..last];
      ProjectAppend(a, b[..last], region);
    }
  }

  /** Failed rows are skipped and every scanned row yields exactly one entry. */
  lemma {:induction false} ProjectMembership(rows: seq<Row>, region: string, e: Entry)
    ensures e in Project(rows, region) <==>
      exists i :: 0 <= i < |rows| && rows[i].Scanned? && e == EntryOf(rows[i].filename, rows[i].columns, region)
    decreases |rows|
  {
    if rows != [] {
      var init := rows[..|rows| - 1];
      ProjectMembership(init, region, e);
      assert forall i :: 0 <= i < |init| ==> init[i] == rows[i];
      if e in Project(init, region) {
        var i :| 0 <= i < |init| && init[i].Scanned? && e == EntryOf(init[i].filename, init[i].columns, region);
        assert rows[i] == init[i];
      }
    }
  }

  /** When every row scans, the list is the rows themselves, position by position. */
  lemma {:induction false} ProjectAllScanned(rows: seq<Row>, region: string)
    requires forall i :: 0 <= i < |rows| ==> rows[i].Scanned?
    ensures |Project(rows, region)| == |rows|
    ensures forall i :: 0 <= i < |rows| ==>
      Project(rows, region)[i] == EntryOf(rows[i].filename, rows[i].columns, region)
    decreases |rows|
  {
    if rows != [] {
      var init := rows[..|rows| - 1];
      ProjectAllScanned(init, region);
    }
  }

  /**
   * getAllFilesHandler after the query: find the client, pick the nearest region once,
   * then append one entry per scanned row.
   */
  method ListNearest(
    query: Option<seq<Row>>, forwardedFor: string, remoteAddr: string,
    locate: string -> Option<Coord>, distance: (Coord, Coord) -> real, rowsFault: bool)
    returns (response: ListResponse)
    ensures query.None? ==> response == QueryFailed
    ensures query.Some? ==>
      var coords := locate(ClientIP(forwardedFor, remoteAddr));
      if coords.None? then response == LocationFailed
      else
        var region := RegionName(Best(Distances(coords.value, distance)));
        if region == "" then response == NoNearestRegion
        else if rowsFault then response == RowsFailed
        else response == Files(Project(query.value, region))
  {
    if query.None? {
      return QueryFailed;
    }
    var rows := query.value;
    var clientIP := ClientIP(forwardedFor, remoteAddr);
    var clientCoordinates := locate(clientIP);
    if clientCoordinates.None? {
      return LocationFailed;
    }
    var nearestRegion := NearestRegion(clientCoordinates.value, distance);
    if nearestRegion == "" {
      return NoNearestRegion;
    }
    var files: seq<Entry> := [];
    var i := 0;
    while i < |rows|
      invariant 0 <= i <= |rows|
      invariant files == Project(rows[..i], nearestRegion)
    {
      assert rows[..i + 1][..i] == rows[..i];
      match rows[i] {
        case ScanFailed =>
        case Scanned(filename, columns) =>
          files := files + [EntryOf(filename, columns, nearestRegion)];
      }
      i := i + 1;
    }
    assert rows[..i] == rows;
    if rowsFault {
      return RowsFailed;
    }
    response := Files(files);
  }

  /**
   * getFileHandler: look the filename up, find the client's nearest region and answer
   * with that region's URL from the row, never another region's.
   */
  method GetFile(
    db: FileUrls, filename: string, dbFault: bool, forwardedFor: string, remoteAddr: string,
    locate: string -> Option<Coord>, distance: (Coord, Coord) -> real)
    returns (response: FileResponse)
    ensures filename == "" ==> response == MissingFilename
    ensures filename != "" && (dbFault || filename !in db.rows) ==> response == NotFound
    ensures filename != "" && !dbFault && filename in db.rows ==>
      var coords := locate(ClientIP(forwardedFor, remoteAddr));
      if coords.None? || Best(Distances(coords.value, distance)).None? then response == NoSuitableServer
      else
        var region := RegionName(Best(Distances(coords.value, distance)));
        response == Located(filename, region, ColumnFor(region, db.rows[filename]))
    // end to end: after uploads only, the answer is the nearest region's own stored file URL
    ensures response.Located? && Consistent(db.rows) ==>
      exists k :: 0 <= k < |StorageServers| && StorageServers[k].name == response.region
        && response.url == FileURL(StorageServers[k], filename)
  {
    if filename == "" {
      return MissingFilename;
    }
    var urls := db.Get(filename, dbFault);
    if urls.None? {
      return NotFound;
    }
    var clientIP := ClientIP(forwardedFor, remoteAddr);
    var nearestServer, nearestURL := FindNearestServer(locate(clientIP), urls.value, distance);
    if nearestServer == "" {
      return NoSuitableServer;
    }
    response := Located(filename, nearestServer, nearestURL);
    if Consistent(db.rows) {
      var k :| 0 <= k < |Sites| && Sites[k].name == nearestServer
        && IsFirstMinimum(Distances(locate(clientIP).value, distance), k);
      ConsistentRowServesSite(db.rows, filename, k);
      SitesMatchServers();
    }
  }
}
