/** The JSON-file-backed key-value store (JSONDatabase.py). The file is a ghost
    snapshot; what was read from it is given as a parse result. */
module Database {
  import opened Wrappers
  import opened Values

  /** The in-memory document: username to user record. `UserManager` calls
      `get_user_by_username` and `add_user`, which `JSONDatabase` does not
      define; the model reads them as `get` and `set` on this one map. */
  type Store = map<string, Json>

  /** The store file at the path, as the constructor finds it before
      `_ensure_file_exists` runs. */
  datatype DiskFile =
    | Missing                                    // no file at the path
    | Malformed                                  // `json.load` raises JSONDecodeError
    | Document(contents: map<string, Json>)      // a JSON object

  /** What `_load` leaves in `_data`: the parsed document, or the empty map on a decode error. */
  function Parsed(f: DiskFile): map<string, Json> {
    if f.Document? then f.contents else map[]
  }

  /** `_ensure_file_exists`: a missing file is created holding `{}`. */
  function Ensured(f: DiskFile): (g: DiskFile)
    ensures f.Missing? ==> g == Document(map[])
    ensures !f.Missing? ==> g == f
  {
    if f.Missing? then Document(map[]) else f
  }

  /** The guard of `_sync_to_disk` as written: it subtracts the interval from
      the clock and compares the difference with the interval again; the time
      of the last sync takes no part in it. */
  predicate SyncDue(now: int, syncInterval: int) {
    now - syncInterval >= syncInterval
  }

  /** `dict.get`: the value under `k`, or None. */
  function Lookup(data: map<string, Json>, k: string): (r: Option<Json>)
    ensures r.Some? <==> k in data
    ensures r.Some? ==> r.value == data[k]
  {
    if k in data then Some(data[k]) else None
  }

  /** Loading yields the parsed content of a decodable file and the empty map
      otherwise; a file that does not exist yet loads as empty too. */
  lemma LoadParseOrEmpty(f: DiskFile)
    ensures f.Missing? ==> Ensured(f) == Document(map[])
    ensures f.Document? ==> Parsed(Ensured(f)) == f.contents
    ensures !f.Document? ==> Parsed(Ensured(f)) == map[]
  {
  }

  /** The guard holds exactly when the clock has reached twice the interval,
      whatever the time of the previous sync. */
  lemma SyncDueIffTwiceInterval(now: int, syncInterval: int)
    ensures SyncDue(now, syncInterval) <==> now >= 2 * syncInterval
  {
  }

  class JsonDatabase {
    var data: map<string, Json>
    const syncInterval: int
    var lastSync: int
    /** The document last written to the store file. */
    ghost var disk: DiskFile

    /** `__init__`: ensure the file exists, load it, then run `_sync_to_disk`
        once (the background thread is given the result of calling it, so the
        sync happens here, synchronously). `now` and `stamp` are the two clock
        readings that sync takes. */
    constructor (file: DiskFile, syncInterval: int, now: int, stamp: int)
      ensures this.syncInterval == syncInterval
      ensures data == Parsed(file)
      ensures SyncDue(now, syncInterval) ==> disk == Document(Parsed(file)) && lastSync == stamp
      ensures !SyncDue(now, syncInterval) ==> disk == Ensured(file) && lastSync == 0
    {
      disk := Ensured(file);
      this.syncInterval := syncInterval;
      data := map[];
      lastSync := 0;
      data := Parsed(Ensured(file));
      new;
      SyncToDisk(now, stamp);
    }

    /** `_sync_to_disk`: when the guard holds, write `_data` to the file and
        record the second clock reading; otherwise do nothing. */
    method SyncToDisk(now: int, stamp: int)
      modifies this
      ensures data == old(data)
      ensures SyncDue(now, syncInterval) ==> disk == Document(data) && lastSync == stamp
      ensures !SyncDue(now, syncInterval) ==> disk == old(disk) && lastSync == old(lastSync)
    {
      if SyncDue(now, syncInterval) {
        disk := Document(data);
        lastSync := stamp;
      }
    }

    /** `set`: bind `k` to `v`; every other key keeps its value. */
    method Set(k: string, v: Json)
      modifies this
      ensures data == old(data)[k := v]
      ensures Get(k) == Some(v)
      ensures forall j :: j != k ==> Lookup(data, j) == Lookup(old(data), j)
      ensures disk == old(disk) && lastSync == old(lastSync)
    {
      data := data[k := v];
    }

    /** `get`: the value stored under `k`, or None when `k` is absent. */
    function Get(k: string): (r: Option<Json>)
      reads this
      ensures r.Some? <==> k in data
      ensures r.Some? ==> r.value == data[k]
    {
      Lookup(data, k)
    }

    /** `close`: exactly one `_sync_to_disk`. */
    method Close(now: int, stamp: int)
      modifies this
      ensures data == old(data)
      ensures SyncDue(now, syncInterval) ==> disk == Document(data) && lastSync == stamp
      ensures !SyncDue(now, syncInterval) ==> disk == old(disk) && lastSync == old(lastSync)
    {
      SyncToDisk(now, stamp);
    }
  }
}
