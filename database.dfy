/**
 * The file_urls table behind addFileToDatabase, getFileFromDatabase and
 * deleteFileFromDatabase (main.go:44-74), as an object whose one field `Get` reads
 * and `Insert` and `Delete` update in place. The SQL driver is not modelled: each operation takes
 * `fault`, true when the driver reports an error (connection lost, statement failed).
 */
module Database {
  import opened Wrappers
  import opened Regions

  class FileUrls {
    /** One row per filename; the filename is the table's unique key. */
    var rows: map<string, Columns>

    constructor ()
      ensures rows == map[]
    {
      rows := map[];
    }

    /** addFileToDatabase: INSERT one row; it fails on a driver fault or when the key is already taken. */
    method Insert(filename: string, columns: Columns, fault: bool) returns (ok: bool)
      modifies this
      ensures ok <==> !fault && filename !in old(rows)
      ensures rows == if ok then old(rows)[filename := columns] else old(rows)
    {
      if fault || filename in rows {
        return false;
      }
      rows := rows[filename := columns];
      ok := true;
    }

    /** getFileFromDatabase: the row as a region-to-URL map, or None when the scan fails (no such row, or a fault). */
    method Get(filename: string, fault: bool) returns (urls: Option<map<string, string>>)
      ensures urls.Some? <==> !fault && filename in rows
      ensures urls.Some? ==>
        && urls.value.Keys == {Singapore, NewYork, London}
        && ColumnsOf(urls.value) == rows[filename]
    {
      if fault || filename !in rows {
        return None;
      }
      ColumnsRoundTrip(rows[filename]);
      urls := Some(RegionUrls(rows[filename]));
    }

    /** deleteFileFromDatabase: DELETE ... WHERE filename = ?; removing an absent row is not an error. */
    method Delete(filename: string, fault: bool) returns (ok: bool)
      modifies this
      ensures ok <==> !fault
      ensures rows == if ok then old(rows) - {filename} else old(rows)
    {
      if fault {
        return false;
      }
      rows := rows - {filename};
      ok := true;
    }
  }
}
