/**
 * The fail-fast fan-out of uploadHandler (main.go:77-177) and deleteHandler
 * (main.go:431-462). Storage nodes are not contacted for real: each region's leg of a
 * fan-out is given as a Leg, and the methods return the requests they would have sent,
 * in order. The registry is a Database.FileUrls object that is written only after
 * every region has succeeded.
 */
module Replication {
  import opened Wrappers
  import opened Regions
  import opened Database

  /** How one region's leg of a fan-out ended. */
  datatype Leg =
    | BuildError          // building the body or the request failed; nothing was sent to the region
    | TransportError      // the request was sent and client.Do returned an error
    | Reply(status: int)  // the region answered with this HTTP status

  const StatusOK: int := 200

  predicate Succeeded(leg: Leg)
    ensures Succeeded(leg) <==> leg == Reply(StatusOK)
  {
    leg.Reply? && leg.status == StatusOK
  }

  /** A request sent to a storage node. */
  datatype Request =
    | Store(url: string, filename: string, content: seq<bv8>)  // POST <base>/upload, multipart field "file"
    | Erase(url: string)                                       // DELETE <base>/delete?filename=<name>

  /** What a handler reports; every case but Done is an error response. */
  datatype Outcome =
    | Done
    | InvalidInput            // 400: no file in the form, or no filename in the query
    | ReadFailed              // 500: the uploaded file could not be read into the buffer
    | RegionFailed(region: string)  // 500: the fan-out stopped at this region
    | MetadataFailed          // 500: every region succeeded, then the table update failed

  /** The multipart upload as the handler sees it. */
  datatype UploadRequest =
    | NoFile                  // r.FormFile("file") failed
    | Unreadable              // copying the file into the buffer failed
    | File(filename: string, content: seq<bv8>)

  /** Index of the first leg that did not succeed, if any. */
  function FirstFailure(legs: seq<Leg>): (f: Option<nat>)
    ensures f.Some? ==> f.value < |legs| && !Succeeded(legs[f.value])
    decreases |legs|
  {
    if legs == [] then None
    else if !Succeeded(legs[0]) then Some(0)
    else match FirstFailure(legs[1..])
      case None => None
      case Some(i) => Some(i + 1)
  }

  lemma {:induction false} FirstFailureIsFirst(legs: seq<Leg>)
    ensures FirstFailure(legs).None? <==> forall i :: 0 <= i < |legs| ==> Succeeded(legs[i])
    ensures FirstFailure(legs).Some? ==>
      && !Succeeded(legs[FirstFailure(legs).value])
      && forall i :: 0 <= i < FirstFailure(legs).value ==> Succeeded(legs[i])
    decreases |legs|
  {
    if legs != [] {
      FirstFailureIsFirst(legs[1..]);
    }
  }

  /** A failing leg after a run of successful ones is the first failure. */
  lemma FirstFailureAt(legs: seq<Leg>, k: nat)
    requires k < |legs| && !Succeeded(legs[k])
    requires forall i :: 0 <= i < k ==> Succeeded(legs[i])
    ensures FirstFailure(legs) == Some(k)
  {
    FirstFailureIsFirst(legs);
  }

  /** How many regions a fan-out sends a request to: all, or up to the first failure (not counting it when nothing was sent). */
  function Contacted(legs: seq<Leg>): (n: nat)
    ensures n <= |legs|
    ensures FirstFailure(legs).None? ==> n == |legs|
    ensures FirstFailure(legs).Some? ==> FirstFailure(legs).value <= n <= FirstFailure(legs).value + 1
    ensures FirstFailure(legs).Some? ==> (n == FirstFailure(legs).value <==> legs[FirstFailure(legs).value].BuildError?)
  {
    match FirstFailure(legs)
    case None => |legs|
    case Some(i) => if legs[i].BuildError? then i else i + 1
  }

  /** The URL a region stores a file under: serverURL + "/files/" + filename. */
  function FileURL(server: StorageServer, filename: string): (url: string)
    ensures |url| == |server.baseURL| + 7 + |filename|
    ensures url[..|server.baseURL|] == server.baseURL
    ensures url[|server.baseURL|..|server.baseURL| + 7] == "/files/"
    ensures url[|url| - |filename|..] == filename
  {
    server.baseURL + "/files/" + filename
  }

  /** The row a successful upload of `filename` inserts. */
  function StoredColumns(filename: string): (c: Columns)
    ensures forall i :: 0 <= i < |StorageServers| ==>
      ColumnFor(StorageServers[i].name, c) == FileURL(StorageServers[i], filename)
  {
    Columns(FileURL(StorageServers[0], filename), FileURL(StorageServers[1], filename), FileURL(StorageServers[2], filename))
  }

  /** Read back through either region lookup, the stored row gives every region its own file URL. */
  lemma StoredColumnsPerRegion(filename: string, i: nat)
    requires i < |StorageServers|
    ensures ColumnFor(StorageServers[i].name, StoredColumns(filename)) == StorageServers[i].baseURL + "/files/" + filename
    ensures MapGet(RegionUrls(StoredColumns(filename)), StorageServers[i].name) == StorageServers[i].baseURL + "/files/" + filename
  {
  }

  /** In a consistent table, the URL a reader gets for site `k` is the file URL of the storage server at `k`. */
  lemma ConsistentRowServesSite(rows: map<string, Columns>, filename: string, k: nat)
    requires Consistent(rows) && filename in rows
    requires k < |Sites|
    ensures ColumnFor(Sites[k].name, rows[filename]) == FileURL(StorageServers[k], filename)
  {
  }

  /** Upload requests to the first `n` regions: every one carries the same filename and the same bytes. */
  function StoreRequests(filename: string, content: seq<bv8>, n: nat): (rs: seq<Request>)
    requires n <= |StorageServers|
    ensures |rs| == n
    ensures forall i :: 0 <= i < n ==>
      rs[i].Store? && rs[i].url == StorageServers[i].baseURL + "/upload"
      && rs[i].filename == filename && rs[i].content == content
  {
    seq(n, i requires 0 <= i < n => Store(StorageServers[i].baseURL + "/upload", filename, content))
  }

  /** Delete requests to the first `n` regions. */
  function EraseRequests(filename: string, n: nat): (rs: seq<Request>)
    requires n <= |StorageServers|
    ensures |rs| == n
    ensures forall i :: 0 <= i < n ==> rs[i] == Erase(StorageServers[i].baseURL + "/delete?filename=" + filename)
  {
    seq(n, i requires 0 <= i < n => Erase(StorageServers[i].baseURL + "/delete?filename=" + filename))
  }

  /** Every row of the table is the row a successful upload of its filename inserts. */
  ghost predicate Consistent(rows: map<string, Columns>)
  {
    forall f :: f in rows ==> rows[f] == StoredColumns(f)
  }

  /**
   * The replication loop of uploadHandler: regions in order, stopping at the first leg
   * that fails. On success `fileURLs` holds each region's file URL.
   */
  method Replicate(filename: string, content: seq<bv8>, legs: seq<Leg>)
    returns (failed: Option<nat>, fileURLs: map<string, string>, sent: seq<Request>)
    requires |legs| == |StorageServers|
    ensures failed == FirstFailure(legs)
    ensures sent == StoreRequests(filename, content, Contacted(legs))
    ensures failed.None? ==>
      && fileURLs.Keys == {Singapore, NewYork, London}
      && forall i :: 0 <= i < |StorageServers| ==> fileURLs[StorageServers[i].name] == StorageServers[i].baseURL + "/files/" + filename
  {
    fileURLs, sent := map[], [];
    var i := 0;
    while i < |StorageServers|
      invariant 0 <= i <= |StorageServers|
      invariant forall j :: 0 <= j < i ==> Succeeded(legs[j])
      invariant sent == StoreRequests(filename, content, i)
      invariant fileURLs.Keys == set j | 0 <= j < i :: StorageServers[j].name
      invariant forall j :: 0 <= j < i ==> fileURLs[StorageServers[j].name] == FileURL(StorageServers[j], filename)
    {
      var server := StorageServers[i];
      if legs[i].BuildError? {
        FirstFailureAt(legs, i);
        return Some(i), fileURLs, sent;
      }
      sent := sent + [Store(server.baseURL + "/upload", filename, content)];
      if !Succeeded(legs[i]) {
        FirstFailureAt(legs, i);
        return Some(i), fileURLs, sent;
      }
      fileURLs := fileURLs[server.name := FileURL(server, filename)];
      i := i + 1;
    }
    assert fileURLs.Keys == {Singapore, NewYork, London} by {
      assert forall n :: n in fileURLs.Keys <==> n == StorageServers[0].name || n == StorageServers[1].name || n == StorageServers[2].name;
    }
    FirstFailureIsFirst(legs);
    failed := None;
  }

  /** The delete loop of deleteHandler: regions in order, stopping at the first leg that fails. */
  method FanOutDelete(filename: string, legs: seq<Leg>) returns (failed: Option<nat>, sent: seq<Request>)
    requires |legs| == |StorageServers|
    ensures failed == FirstFailure(legs)
    ensures sent == EraseRequests(filename, Contacted(legs))
  {
    sent := [];
    var i := 0;
    while i < |StorageServers|
      invariant 0 <= i <= |StorageServers|
      invariant forall j :: 0 <= j < i ==> Succeeded(legs[j])
      invariant sent == EraseRequests(filename, i)
    {
      if legs[i].BuildError? {
        FirstFailureAt(legs, i);
        return Some(i), sent;
      }
      sent := sent + [Erase(StorageServers[i].baseURL + "/delete?filename=" + filename)];
      if !Succeeded(legs[i]) {
        FirstFailureAt(legs, i);
        return Some(i), sent;
      }
      i := i + 1;
    }
    FirstFailureIsFirst(legs);
    failed := None;
  }

  /**
   * uploadHandler: replicate to every region, then insert the row. The table changes
   * only when every region and the insert succeed, and then gains exactly that row.
   */
  method Upload(db: FileUrls, request: UploadRequest, legs: seq<Leg>, dbFault: bool)
    returns (outcome: Outcome, sent: seq<Request>)
    requires |legs| == |StorageServers|
    modifies db
    ensures request.NoFile? ==> outcome == InvalidInput && sent == [] && db.rows == old(db.rows)
    ensures request.Unreadable? ==> outcome == ReadFailed && sent == [] && db.rows == old(db.rows)
    ensures request.File? ==> sent == StoreRequests(request.filename, request.content, Contacted(legs))
    ensures request.File? && FirstFailure(legs).Some? ==>
      outcome == RegionFailed(StorageServers[FirstFailure(legs).value].name) && db.rows == old(db.rows)
    ensures request.File? && FirstFailure(legs).None? ==>
      if !dbFault && request.filename !in old(db.rows)
      then outcome == Done && db.rows == old(db.rows)[request.filename := StoredColumns(request.filename)]
      else outcome == MetadataFailed && db.rows == old(db.rows)
    ensures Consistent(old(db.rows)) ==> Consistent(db.rows)
  {
    match request
    case NoFile =>
      return InvalidInput, [];
    case Unreadable =>
      return ReadFailed, [];
    case File(filename, content) =>
      var failed, fileURLs;
      failed, fileURLs, sent := Replicate(filename, content, legs);
      if failed.Some? {
        return RegionFailed(StorageServers[failed.value].name), sent;
      }
      var columns := ColumnsOf(fileURLs);
      assert columns == StoredColumns(filename) by {
        assert fileURLs[StorageServers[0].name] == FileURL(StorageServers[0], filename);
        assert fileURLs[StorageServers[1].name] == FileURL(StorageServers[1], filename);
        assert fileURLs[StorageServers[2].name] == FileURL(StorageServers[2], filename);
      }
      var ok := db.Insert(filename, columns, dbFault);
      outcome := if ok then Done else MetadataFailed;
  }

  /**
   * deleteHandler: delete from every region, then delete the row. The row is removed
   * only when every region and the table delete succeed.
   */
  method DeleteFile(db: FileUrls, filename: string, legs: seq<Leg>, dbFault: bool)
    returns (outcome: Outcome, sent: seq<Request>)
    requires |legs| == |StorageServers|
    modifies db
    ensures filename == "" ==> outcome == InvalidInput && sent == [] && db.rows == old(db.rows)
    ensures filename != "" ==> sent == EraseRequests(filename, Contacted(legs))
    ensures filename != "" && FirstFailure(legs).Some? ==>
      outcome == RegionFailed(StorageServers[FirstFailure(legs).value].name) && db.rows == old(db.rows)
    ensures filename != "" && FirstFailure(legs).None? ==>
      if !dbFault
      then outcome == Done && db.rows == old(db.rows) - {filename}
      else outcome == MetadataFailed && db.rows == old(db.rows)
    ensures Consistent(old(db.rows)) ==> Consistent(db.rows)
  {
    if filename == "" {
      return InvalidInput, [];
    }
    var failed;
    failed, sent := FanOutDelete(filename, legs);
    if failed.Some? {
      return RegionFailed(StorageServers[failed.value].name), sent;
    }
    var ok := db.Delete(filename, dbFault);
    outcome := if ok then Done else MetadataFailed;
  }
}
