/** The values that travel between the parts of the proxy (internal/storage/storage.go). */
module Storage {

  newtype byte = x: int | 0 <= x < 256

  type Bytes = seq<byte>

  datatype Option<+T> = None | Some(value: T)

  /** One key with its value; ttl is in whole seconds and may be zero or negative (meaning "use a default"). */
  datatype Entry = Entry(key: string, value: Bytes, version: nat, ttl: int)

  datatype Error =
    | KeyNotFound
    | VersionMismatch
    | BackendUnhealthy
    | CircuitOpen
    | Failed

  /** What one storage operation answers. */
  datatype Result<+T> = Ok(value: T) | Err(error: Error)

  /** An abstract backend family: one cell per (backend id, key). */
  type Cells = map<(string, string), Bytes>

  function Lookup(cells: Cells, backend: string, key: string): Option<Bytes> {
    if (backend, key) in cells then Some(cells[(backend, key)]) else None
  }

  /** One write that reached a backend. */
  datatype Write = Write(backend: string, entry: Entry)

  /** The contents of the backends once the writes have been applied in order. */
  function Replay(init: Cells, writes: seq<Write>): Cells {
    if writes == [] then init
    else
      var last := writes[|writes| - 1];
      Replay(init, writes[..|writes| - 1])[(last.backend, last.entry.key) := last.entry.value]
  }

  lemma ReplayAppend(init: Cells, ws: seq<Write>, w: Write)
    ensures Replay(init, ws + [w]) == Replay(init, ws)[(w.backend, w.entry.key) := w.entry.value]
  {
    assert (ws + [w])[..|ws|] == ws;
  }
}
