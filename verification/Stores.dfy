/**
 The two versioned stores as functions: the in-memory store keeps its version counters beside the
 cache, the redis store keeps a version under a second key of the same server.
 Time is in whole seconds; a cell is live before its expiry.
 */
module Stores {
  import opened Storage

  const DEFAULT_TTL := 300

  function Ttl(ttl: int): int {
    if ttl <= 0 then DEFAULT_TTL else ttl
  }

  // ----- Redis -----

  /** What a redis string holds: bytes that were SET, or a number that INCR made. */
  datatype Data = Blob(bytes: Bytes) | Number(n: nat)

  /** How the server reads bytes as a number and writes a number as bytes. */
  datatype Codec = Codec(parse: Bytes -> Option<nat>, render: nat -> Bytes)

  /** A key without an expiry lives until it is deleted. */
  datatype Cell = Cell(data: Data, expiry: Option<int>)

  datatype Server = Server(cells: map<string, Cell>, now: int)

  predicate Live(s: Server, k: string) {
    k in s.cells && (s.cells[k].expiry.None? || s.now < s.cells[k].expiry.value)
  }

  /** A version key is the key followed by ":version". */
  function VersionKey(key: string): string {
    key + ":version"
  }

  function AsBytes(c: Codec, d: Data): Bytes {
    match d case Blob(b) => b case Number(n) => c.render(n)
  }

  function AsNumber(c: Codec, d: Data): Option<nat> {
    match d case Blob(b) => c.parse(b) case Number(n) => Some(n)
  }

  /** SET; INCR; EXPIRE in one transaction.  A failing INCR fails the call, not the other commands. */
  function TxSet(c: Codec, s: Server, key: string, value: Bytes, ttl: int): (Server, bool) {
    var vk := VersionKey(key);
    var s1 := s.(cells := s.cells[key := Cell(Blob(value), Some(s.now + ttl))]);
    var current := if Live(s1, vk) then AsNumber(c, s1.cells[vk].data) else Some(0);
    match current
    case None => (s1.(cells := s1.cells[vk := s1.cells[vk].(expiry := Some(s.now + ttl))]), false)
    case Some(n) => (s1.(cells := s1.cells[vk := Cell(Number(n + 1), Some(s.now + ttl))]), true)
  }

  function TxDelete(s: Server, key: string): Server {
    s.(cells := s.cells - {key, VersionKey(key)})
  }

  /** GET; GET in one transaction: either key missing reads as not found. */
  function TxGet(c: Codec, s: Server, key: string): Result<Entry> {
    var vk := VersionKey(key);
    if !Live(s, key) || !Live(s, vk) then Err(KeyNotFound)
    else
      var version := match AsNumber(c, s.cells[vk].data) case None => 0 case Some(n) => n;
      Ok(Entry(key, AsBytes(c, s.cells[key].data), version, 0))
  }

  /** A transaction may be lost before it reaches the server, or its answer may be lost. */
  datatype Fault = NoFault | RequestLost | AnswerLost

  datatype Redis = Redis(server: Server, healthy: bool)

  function RedisSet(c: Codec, r: Redis, e: Entry, fault: Fault): (Redis, Result<()>) {
    if !r.healthy then (r, Err(BackendUnhealthy))
    else if fault.RequestLost? then (r, Err(Failed))
    else
      var (server, ok) := TxSet(c, r.server, e.key, e.value, Ttl(e.ttl));
      (r.(server := server), if ok && fault.NoFault? then Ok(()) else Err(Failed))
  }

  function RedisDelete(r: Redis, key: string, fault: Fault): (Redis, Result<()>) {
    if !r.healthy then (r, Err(BackendUnhealthy))
    else if fault.RequestLost? then (r, Err(Failed))
    else (r.(server := TxDelete(r.server, key)), if fault.NoFault? then Ok(()) else Err(Failed))
  }

  function RedisGet(c: Codec, r: Redis, key: string, fault: Fault): Result<Entry> {
    if !r.healthy then Err(BackendUnhealthy)
    else if !fault.NoFault? then Err(Failed)
    else TxGet(c, r.server, key)
  }

  // ----- Memory -----

  datatype Stored = Stored(value: Bytes, expiry: int)

  datatype Memory = Memory(cache: map<string, Stored>, versions: map<string, nat>, now: int, healthy: bool)

  function VersionOf(m: Memory, key: string): nat {
    if key in m.versions then m.versions[key] else 0
  }

  /** The version is raised first; the cache may then refuse the value. */
  function MemorySet(m: Memory, e: Entry, taken: bool): (Memory, Result<()>) {
    if !m.healthy then (m, Err(BackendUnhealthy))
    else
      var m1 := m.(versions := m.versions[e.key := VersionOf(m, e.key) + 1]);
      if taken
      then (m1.(cache := m1.cache[e.key := Stored(e.value, m.now + Ttl(e.ttl))]), Ok(()))
      else (m1, Err(Failed))
  }

  function MemoryDelete(m: Memory, key: string): (Memory, Result<()>) {
    if !m.healthy then (m, Err(BackendUnhealthy))
    else (m.(cache := m.cache - {key}, versions := m.versions - {key}), Ok(()))
  }

  predicate InCache(m: Memory, key: string) {
    key in m.cache && m.now < m.cache[key].expiry
  }

  function MemoryGet(m: Memory, key: string): Result<Entry> {
    if !m.healthy then Err(BackendUnhealthy)
    else if !InCache(m, key) then Err(KeyNotFound)
    else Ok(Entry(key, m.cache[key].value, VersionOf(m, key), 0))
  }

  // ----- The stores as objects -----

  class MemoryBackend {
    var cache: map<string, Stored>
    var versions: map<string, nat>
    var now: int
    var healthy: bool

    ghost function Snapshot(): Memory
      reads this
    {
      Memory(cache, versions, now, healthy)
    }

    constructor ()
      ensures Snapshot() == Memory(map[], map[], 0, true)
    {
      cache, versions, now, healthy := map[], map[], 0, true;
    }

    method IncrementVersion(key: string)
      modifies `versions
      ensures versions == old(versions)[key := VersionOf(old(Snapshot()), key) + 1]
    {
      versions := versions[key := (if key in versions then versions[key] else 0) + 1];
    }

    method Get(key: string) returns (r: Result<Entry>)
      ensures r == MemoryGet(Snapshot(), key)
    {
      if !healthy {
        return Err(BackendUnhealthy);
      }
      if key !in cache || cache[key].expiry <= now {
        return Err(KeyNotFound);
      }
      var version := if key in versions then versions[key] else 0;
      return Ok(Entry(key, cache[key].value, version, 0));
    }

    method Set(e: Entry, taken: bool) returns (r: Result<()>)
      modifies this
      ensures (Snapshot(), r) == MemorySet(old(Snapshot()), e, taken)
    {
      if !healthy {
        return Err(BackendUnhealthy);
      }
      var ttl := e.ttl;
      if ttl <= 0 {
        ttl := DEFAULT_TTL;
      }
      IncrementVersion(e.key);
      if !taken {
        return Err(Failed);
      }
      cache := cache[e.key := Stored(e.value, now + ttl)];
      return Ok(());
    }

    method Delete(key: string) returns (r: Result<()>)
      modifies this
      ensures (Snapshot(), r) == MemoryDelete(old(Snapshot()), key)
    {
      if !healthy {
        return Err(BackendUnhealthy);
      }
      cache := cache - {key};
      versions := versions - {key};
      return Ok(());
    }

    method SetHealthy(h: bool)
      modifies `healthy
      ensures Snapshot() == old(Snapshot()).(healthy := h)
    {
      healthy := h;
    }
  }

  class RedisBackend {
    const codec: Codec
    var server: Server   // the remote keys
    var healthy: bool

    ghost function Snapshot(): Redis
      reads this
    {
      Redis(server, healthy)
    }

    constructor (codec: Codec, server: Server)
      ensures Snapshot() == Redis(server, true) && this.codec == codec
    {
      this.codec, this.server, this.healthy := codec, server, true;
    }

    // ----- Commands of the server -----

    method CmdGet(key: string) returns (d: Option<Data>)
      ensures d == if Live(server, key) then Some(server.cells[key].data) else None
    {
      if Live(server, key) {
        return Some(server.cells[key].data);
      }
      return None;
    }

    method CmdSet(key: string, value: Bytes, ttl: int)
      modifies `server
      ensures server == old(server).(cells := old(server).cells[key := Cell(Blob(value), Some(server.now + ttl))])
    {
      server := server.(cells := server.cells[key := Cell(Blob(value), Some(server.now + ttl))]);
    }

    /** INCR creates a missing key without an expiry, and fails on bytes that are no number. */
    method CmdIncr(key: string) returns (ok: bool)
      modifies `server
      ensures ok <==> Live(old(server), key) ==> AsNumber(codec, old(server).cells[key].data).Some?
      ensures !ok ==> server == old(server)
      ensures ok ==> server == old(server).(cells := old(server).cells[key :=
                if Live(old(server), key)
                then Cell(Number(AsNumber(codec, old(server).cells[key].data).value + 1), old(server).cells[key].expiry)
                else Cell(Number(1), None)])
    {
      var cell := Cell(Number(1), None);
      if Live(server, key) {
        var n := AsNumber(codec, server.cells[key].data);
        if n.None? {
          return false;
        }
        cell := Cell(Number(n.value + 1), server.cells[key].expiry);
      }
      server := server.(cells := server.cells[key := cell]);
      return true;
    }

    /** EXPIRE does nothing to a missing key. */
    method CmdExpire(key: string, ttl: int)
      modifies `server
      ensures server == if !Live(old(server), key) then old(server) else
                old(server).(cells := old(server).cells[key :=
                  old(server).cells[key].(expiry := Some(server.now + ttl))])
    {
      if Live(server, key) {
        server := server.(cells := server.cells[key := server.cells[key].(expiry := Some(server.now + ttl))]);
      }
    }

    method CmdDel(key: string)
      modifies `server
      ensures server == old(server).(cells := old(server).cells - {key})
    {
      server := server.(cells := server.cells - {key});
    }

    // ----- The backend's operations, each one transaction -----

    method Get(key: string, fault: Fault) returns (r: Result<Entry>)
      ensures r == RedisGet(codec, Snapshot(), key, fault)
    {
      if !healthy {
        return Err(BackendUnhealthy);
      }
      if !fault.NoFault? {
        return Err(Failed);
      }
      var value := CmdGet(key);
      var counted := CmdGet(VersionKey(key));
      if value.None? || counted.None? {
        return Err(KeyNotFound);
      }
      var version := 0;
      var parsed := AsNumber(codec, counted.value);
      if parsed.Some? {
        version := parsed.value;
      }
      return Ok(Entry(key, AsBytes(codec, value.value), version, 0));
    }

    /** The transaction of Set. */
    method ExecSet(key: string, value: Bytes, ttl: int) returns (ok: bool)
      modifies `server
      ensures (server, ok) == TxSet(codec, old(server), key, value, ttl)
    {
      CmdSet(key, value, ttl);
      ghost var written := server;
      ok := CmdIncr(VersionKey(key));
      CmdExpire(VersionKey(key), ttl);
      ghost var vk := VersionKey(key);
      assert written.cells[vk := server.cells[vk]] == server.cells;
    }

    method Set(e: Entry, fault: Fault) returns (r: Result<()>)
      modifies this
      ensures (Snapshot(), r) == RedisSet(codec, old(Snapshot()), e, fault)
    {
      if !healthy {
        return Err(BackendUnhealthy);
      }
      var ttl := e.ttl;
      if ttl <= 0 {
        ttl := DEFAULT_TTL;
      }
      if fault.RequestLost? {
        return Err(Failed);
      }
      var ok := ExecSet(e.key, e.value, ttl);
      if !ok || fault.AnswerLost? {
        return Err(Failed);
      }
      return Ok(());
    }

    method Delete(key: string, fault: Fault) returns (r: Result<()>)
      modifies this
      ensures (Snapshot(), r) == RedisDelete(old(Snapshot()), key, fault)
    {
      if !healthy {
        return Err(BackendUnhealthy);
      }
      if fault.RequestLost? {
        return Err(Failed);
      }
      CmdDel(key);
      CmdDel(VersionKey(key));
      assert server.cells == old(server).cells - {key, VersionKey(key)};
      if fault.AnswerLost? {
        return Err(Failed);
      }
      return Ok(());
    }

    method SetHealthy(h: bool)
      modifies `healthy
      ensures Snapshot() == old(Snapshot()).(healthy := h)
    {
      healthy := h;
    }
  }
}
