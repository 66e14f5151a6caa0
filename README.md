# central-api: replication and routing core

A model in Dafny of the coordinator in `main.go` of central-api. The coordinator
stores every uploaded file on three regional storage servers (Singapore, New York and
London). It records the three per-region URLs in the `file_urls` table, and it answers
reads with the URL of the region nearest the client.

The model covers four pieces of decision logic that run under the HTTP, SQL and
geolocation plumbing:

- **Client address** (`ClientAddress`). The first comma-separated entry of
  `X-Forwarded-For`, or else the peer address cut before its last colon.
- **Nearest region** (`Nearest`). The argmin loops of `findNearestServer` and
  `getAllFilesHandler`. They start from the sentinel `float64(^uint(0) >> 1)` and
  replace the choice only on a strictly smaller distance. Both loops are proved
  against one reference function, `Best`, whose meaning is a separate lemma: the
  first minimum, below the sentinel.
- **Fail-fast fan-out** (`Replication`). Upload and delete visit the regions in order
  and stop at the first failing region. They touch the table (`Database.FileUrls`, a
  class whose `rows` map the methods update) only after every region succeeded.
  Both keep the invariant that every row holds `serverURL + "/files/" + filename`
  for each region.
- **Listing** (`Listing`). `getAllFilesHandler` maps the scanned rows to one
  `(filename, url)` entry each, in row order, all for a single region chosen once.
  `getFileHandler` composes the table lookup with `findNearestServer`.

Collaborators are inputs:

- Each region's leg of a fan-out is a `Leg`: a construction error, a transport error,
  or a reply status.
- A table operation's driver error is a `fault` flag.
- The geolocation service is a function `locate` from an address to optional
  coordinates.
- Distance is a function `distance` on coordinates.
- Go ranges over the `storageServers` and `serverCoordinates` maps in an unspecified
  order. The model fixes their declaration order: Singapore, New York, London.

Two choices follow the code where a design could reasonably differ:

- `deleteFileFromDatabase` runs `DELETE ... WHERE filename = ?`, which succeeds when
  no such row exists. `FileUrls.Delete` therefore has no not-found error; a registry
  whose delete reported not-found for an unknown name would behave differently.
- The nearest-region loops keep the first strict minimum in iteration order, so a tie
  goes to the region declared first, not to, say, the lexicographically smallest name.

## Model

| member | source | states |
|---|---|---|
| ClientAddress.IndexOf | main.go:315 | the split point of `strings.Split(s, ",")[0]`: -1 exactly when there is no comma, otherwise a comma with no comma before it |
| ClientAddress.LastIndexOf | main.go:320 | `strings.LastIndex` for ':': -1 exactly when there is no colon, otherwise a colon with no colon after it |
| ClientAddress.FirstField | main.go:315 | `strings.Split(s, ",")[0]` is a comma-free prefix of `s`: all of `s`, or followed in `s` by a comma |
| Wrappers.MapGet | main.go:353 | Go's `m[k]` on a `map[string]string`: the stored value when `k` is present, "" otherwise |
| ClientAddress.ClientIP | main.go:311-324 | with a non-empty X-Forwarded-For: a comma-free prefix of the header, either all of it or followed by a comma, untrimmed; otherwise a prefix of RemoteAddr: all of it when it has no colon, else cut just before its last colon |
| Regions.SitesMatchServers | main.go:18-22 | the storage servers and the coordinate table name the same three distinct regions in the same order |
| Regions.ColumnsRoundTrip | main.go:62-66 | reading a row as a region map and taking the insert arguments back out gives the same three columns |
| Regions.RegionUrls | main.go:62-66 | a row read back as a map has exactly the keys Singapore, New York and London |
| Regions.ColumnsOf | main.go:168 | the insert arguments taken from a map over exactly the three regions give back that same map when the row is read |
| Regions.ColumnFor | main.go:239-246 | the list handler's switch picks, for every region name, the same URL as the single-file map lookup, and "" for a name it does not list |
| Nearest.Distances | main.go:349 | one `haversineDistance(client, site)` per site, in site order; here the abstract `distance` applied to each site's coordinates |
| Nearest.RegionName | main.go:344 | the handlers' convention for the scan result: "" exactly when nothing was chosen, otherwise the chosen site's name |
| Nearest.Best | main.go:211-219 | reference definition of the scan: a chosen index is in range and its distance is below the sentinel; its full meaning is `BestIsFirstMinimum` |
| Nearest.BestIsFirstMinimum | main.go:211-219 | the scan chooses nothing exactly when no distance is below the sentinel; otherwise its choice is at most every distance and strictly below every earlier one (first wins on ties) |
| Nearest.FirstMinimumIsUnique | main.go:213-218 | the first minimum below the sentinel is unique, so the scan's result is determined by the distances |
| Nearest.ClientOnSiteIsChosen | main.go:348-355 | when the client stands on a site, its self-distance is zero and every other site is at a positive distance, exactly that site is chosen, at distance zero |
| Nearest.NearestRegion | main.go:211-225 | the region the list handler selects is the first minimum; "" exactly when every distance is at least the sentinel |
| Nearest.FindNearestServer | main.go:328-358 | ("", "") when the coordinates lookup failed; otherwise the first-minimum region and exactly `urls[region]` ("" when absent), never another region's URL |
| Database.FileUrls.Insert | main.go:45-49 | the insert succeeds exactly when there is no driver fault and the filename is new, and then adds exactly that row; on failure the table is unchanged |
| Database.FileUrls.Get | main.go:52-67 | a result exactly when there is no fault and the row exists; it has the three region keys and maps Singapore, New York and London to the three columns in that order |
| Database.FileUrls.Delete | main.go:70-74 | succeeds exactly when there is no driver fault, and then removes the filename's row, if any, and nothing else |
| Replication.Succeeded | main.go:156 | a region's leg succeeds exactly when it got a reply with status 200 (also the test at main.go:447) |
| Replication.FirstFailure | main.go:106-160 | the index where a fan-out stops: in range, and that leg did not succeed; its full meaning is `FirstFailureIsFirst` |
| Replication.Contacted | main.go:439-451 | how many regions receive a request: all of them when no leg fails, otherwise the regions before the failing one, plus that one unless its request could not be built |
| Replication.FileURL | main.go:163 | the stored URL starts with the server's base URL, ends with the filename, and has "/files/" between them |
| Replication.StoredColumns | main.go:168 | the row a successful upload inserts: each region's column is that region's `serverURL + "/files/" + filename` (main.go:163) |
| Replication.StoreRequests | main.go:120-136 | upload requests to the first `n` regions, in order: a POST to `serverURL + "/upload"` carrying the same filename and the same buffered bytes |
| Replication.EraseRequests | main.go:440 | delete requests to the first `n` regions, in order: a DELETE to `serverURL + "/delete?filename=" + filename` |
| Replication.FirstFailureIsFirst | main.go:106-160 | the fan-out's stopping point is a failing leg with every earlier leg successful; there is none exactly when all legs succeed |
| Replication.FirstFailureAt | main.go:439-451 | a failing leg preceded only by successful legs is where the fan-out stops |
| Replication.StoredColumnsPerRegion | main.go:163 | the inserted row gives each region `serverURL + "/files/" + filename`, read through either the switch or the map |
| Replication.ConsistentRowServesSite | main.go:163 | in a table written only by uploads, the URL a reader gets for site `k` is the file URL of the storage server at position `k` |
| Replication.Replicate | main.go:103-164 | stops at the first failing region; requests go to exactly the regions before it, plus the failing one if its request was built, each with the same filename and bytes; on success every region's URL is `serverURL + "/files/" + filename` |
| Replication.FanOutDelete | main.go:439-451 | stops at the first failing region; delete requests go to exactly the regions before it, plus the failing one if its request was built |
| Replication.Upload | main.go:77-177 | a missing or unreadable file changes nothing. A failing region is reported and the table is unchanged. After all regions succeed, exactly one row is inserted, holding every region's URL. A failed insert reports a metadata failure even though every region was written. Consistent rows stay consistent |
| Replication.DeleteFile | main.go:431-462 | an empty filename changes nothing. A failing region is reported and the row stays. The row is removed only after every region succeeded, and a failed table delete is reported. Consistent rows stay consistent |
| Listing.EntryOf | main.go:238-251 | the entry a scanned row contributes: its filename, and its URL for the chosen region as the single-file map lookup would give it |
| Listing.Project | main.go:229-252 | reference definition of the listing: at most one entry per row; its meaning is `ProjectAppend`, `ProjectMembership` and `ProjectAllScanned` |
| Listing.ProjectAppend | main.go:229-252 | the listing of concatenated rows is the concatenation of their listings, so row order is kept |
| Listing.ProjectMembership | main.go:230-235 | an entry is listed exactly when some row scanned and yields it for the chosen region; failed rows contribute nothing |
| Listing.ProjectAllScanned | main.go:248-251 | when every row scans, the list has one entry per row, at the same position, with that row's URL for the chosen region |
| Listing.ListNearest | main.go:180-264 | reports, in order, a query failure, a location failure, no nearest region, or an iteration error. Otherwise it lists the projection of all rows onto the single region chosen before the rows are read |
| Listing.GetFile | main.go:267-308 | an empty filename gives 400, and a missing row or query failure gives 404. With no nearest region (lookup failure, or nothing below the sentinel) the answer is 500. Otherwise it answers the nearest region and that region's column of the row. In a table written only by uploads, that is the nearest region's own `serverURL + "/files/" + filename` |

## Left out

- HTTP plumbing is not modelled: writing responses, `http.Error` bodies, JSON encoding, logging, `main` and route registration. Responses are the `Outcome`, `ListResponse` and `FileResponse` datatypes.
- Multipart encoding, the Content-Type boundary and replaying the buffer are not modelled. A `Store` request records the filename and the same bytes for every region.
- The HTTP calls to the storage servers are per-region `Leg` inputs. The `defer resp.Body.Close()` calls inside the upload loop are not modelled.
- The call to ip-api.com and the decoding of `lat`/`lon` from JSON are a `locate` function to optional coordinates. Any of their failures is `None`.
- `haversineDistance` and `degreesToRadians` are floating-point trigonometry and are not modelled. Distance is an abstract function on coordinates, compared as reals. So placements such as a client near Singapore choosing Singapore are not proved.
- SQL and the driver are not modelled, nor are `initDB` and its panics. The table is the `FileUrls` class. The table's schema is not part of the source; the model assumes `filename` is a unique key, so inserting an existing name fails.
- `getAllFilesHandler` issues `SELECT` without `ORDER BY`, so row order comes from the driver. `ListNearest` takes the rows as an input sequence and does not derive them from `FileUrls`. An error from `rows.Err()` is a flag.
- Go's random map iteration order is not modelled. The model uses one fixed order, so a tie between two regions always goes to the first in that order.
- The raw filename is concatenated, without URL escaping, into the stored file URL and into the delete request's query. The model keeps the raw concatenation and does not model how a storage server would parse such a URL.
- `Nearest.Sentinel` takes the value of `float64(^uint(0) >> 1)` on a 64-bit target (2^63). On a 32-bit target the sentinel would be 2^31 - 1.
- Strings are sequences of characters where Go works on bytes. Indices can differ when a non-ASCII character precedes a separator, but the prefix `ClientIP` cuts off is the same. Header bytes that are not valid UTF-8 have no counterpart.
- Timeouts are not modelled. The storage calls (`&http.Client{}`, main.go:147 and 445) and the geolocation call (`http.Get`, main.go:375) set none. A call that hangs has no `Leg` or `locate` counterpart, so the model assumes every call finishes.
- Concurrency between requests is not modelled. Each method is one request run alone.
