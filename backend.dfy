/**
 * The Redis store as the cache sees it through the Upstash REST client.
 *
 * The store's contents are a `Db` value: key to stored text and, when the key was
 * written with an expiry, its time-to-live in seconds. The functions on `Db` give the
 * effect of each Redis command the core issues; the `Server` object holds the one
 * store every handle talks to, and a `Client` is one Upstash handle, with one method
 * per command. Every command method takes a `fail` flag standing for a network or
 * server error: a failed command has no effect and its promise rejects (`Failed`).
 * The ghost `sent` log records every command issued through the handle, failed or not.
 */
module Backend {
  import opened Wrappers
  import opened Text
  import opened Json

  /** A stored value: its text and, if it was written with an expiry, the seconds it was given. */
  datatype Entry = Entry(text: string, ttl: Option<int>)

  type Db = map<string, Entry>

  /** The settled promise of a command: its value, or a rejection. */
  datatype Reply<T> = Ok(value: T) | Failed

  /** The Redis commands issued by the core, with their arguments. */
  datatype Command =
    | GET(key: string)
    | SETEX(key: string, seconds: int, text: string)
    | SET(key: string, text: string, ex: int)
    | KEYS(pattern: string)
    | DEL(keys: set<string>)
    | INCR(key: string)
    | DECR(key: string)

  /** `GET` through the client: the stored text, deserialised; `null` for a missing key. */
  function Read(db: Db, key: string): (r: Json)
    ensures key !in db ==> r == JNull
  {
    if key in db then Deserialize(db[key].text) else JNull
  }

  /**
   * `SETEX key seconds text` (and `SET key text EX seconds`): stores the text with the
   * given expiry, replacing whatever was there. Redis refuses a non-positive expiry.
   */
  function Store(db: Db, key: string, seconds: int, text: string): (r: Reply<Db>)
    ensures r.Ok? <==> seconds > 0
    ensures r.Ok? ==> r.value.Keys == db.Keys + {key} && r.value[key] == Entry(text, Some(seconds))
    ensures r.Ok? ==> forall k :: k in db && k != key ==> r.value[k] == db[k]
  {
    if seconds <= 0 then Failed else Ok(db[key := Entry(text, Some(seconds))])
  }

  /** `KEYS pattern`: the stored keys the pattern matches. */
  function Matching(db: Db, pattern: string): (r: set<string>)
    ensures r <= db.Keys
    ensures forall k :: k in db ==> (k in r <==> GlobMatch(pattern, k))
  {
    set k | k in db && GlobMatch(pattern, k)
  }

  /** `DEL k1 k2 ...`: removes the given keys. Redis refuses a `DEL` with no key. */
  function Delete(db: Db, keys: set<string>): (r: Reply<Db>)
    ensures r.Ok? <==> keys != {}
    ensures r.Ok? ==> r.value.Keys == db.Keys - keys
    ensures r.Ok? ==> forall k :: k in r.value ==> r.value[k] == db[k]
  {
    if keys == {} then Failed else Ok(db - keys)
  }

  /** The integer a counter key holds: 0 when absent, None when its text is not an integer. */
  function Counter(db: Db, key: string): Option<int>
  {
    if key in db then DecimalToInt(db[key].text) else Some(0)
  }

  /**
   * `INCR` (delta 1) and `DECR` (delta -1): the counter goes up or down by one, keeping
   * the key's expiry; an absent key counts as 0 and is created without expiry. Redis
   * refuses a key whose value is not an integer.
   */
  function Add(db: Db, key: string, delta: int): (r: Reply<Db>)
    ensures r.Ok? <==> Counter(db, key).Some?
    ensures r.Ok? ==> Counter(r.value, key) == Some(Counter(db, key).value + delta)
    ensures r.Ok? ==> r.value.Keys == db.Keys + {key}
    ensures r.Ok? ==> forall k :: k in db && k != key ==> r.value[k] == db[k]
    ensures r.Ok? && key in db ==> r.value[key].ttl == db[key].ttl
  {
    match Counter(db, key)
    case None => Failed
    case Some(n) =>
      DecimalRoundTrip(n + delta);
      var ttl := if key in db then db[key].ttl else None;
      Ok(db[key := Entry(IntToDecimal(n + delta), ttl)])
  }

  /**
   * The effect of one operation of the cache or the blacklist: the store afterwards, the
   * value the operation returns and the commands it issued, in order.
   */
  datatype Run<T> = Run(db: Db, value: T, sent: seq<Command>)

  /** The objects an operation through a possibly absent handle may change: the handle (its log) and its server. */
  function Footprint(redis: Client?): set<object>
  {
    if redis == null then {} else {redis, redis.server}
  }

  /** The Redis instance behind the REST endpoint: one store, shared by every handle. */
  class Server {
    var db: Db

    constructor(db: Db)
      ensures this.db == db
    {
      this.db := db;
    }
  }

  /** An Upstash REST client: the endpoint it was built with and the store it reaches. */
  class Client {
    const url: string
    const token: string
    const server: Server
    ghost var sent: seq<Command>

    constructor(url: string, token: string, server: Server)
      ensures this.url == url && this.token == token && this.server == server
      ensures sent == []
    {
      this.url := url;
      this.token := token;
      this.server := server;
      sent := [];
    }

    method Get(key: string, fail: bool) returns (r: Reply<Json>)
      modifies this
      ensures sent == old(sent) + [GET(key)]
      ensures r == if fail then Failed else Ok(Read(server.db, key))
    {
      sent := sent + [GET(key)];
      if fail {
        r := Failed;
      } else {
        r := Ok(Read(server.db, key));
      }
    }

    method SetEx(key: string, seconds: int, text: string, fail: bool) returns (r: Reply<()>)
      modifies this, server
      ensures sent == old(sent) + [SETEX(key, seconds, text)]
      ensures var s := Store(old(server.db), key, seconds, text);
        if fail || s.Failed? then r == Failed && server.db == old(server.db)
        else r == Ok(()) && server.db == s.value
    {
      sent := sent + [SETEX(key, seconds, text)];
      var s := Store(server.db, key, seconds, text);
      if fail || s.Failed? {
        r := Failed;
      } else {
        server.db := s.value;
        r := Ok(());
      }
    }

    /** `set(key, text, { ex: seconds })`. */
    method Set(key: string, text: string, ex: int, fail: bool) returns (r: Reply<()>)
      modifies this, server
      ensures sent == old(sent) + [SET(key, text, ex)]
      ensures var s := Store(old(server.db), key, ex, text);
        if fail || s.Failed? then r == Failed && server.db == old(server.db)
        else r == Ok(()) && server.db == s.value
    {
      sent := sent + [SET(key, text, ex)];
      var s := Store(server.db, key, ex, text);
      if fail || s.Failed? {
        r := Failed;
      } else {
        server.db := s.value;
        r := Ok(());
      }
    }

    method Keys(pattern: string, fail: bool) returns (r: Reply<set<string>>)
      modifies this
      ensures sent == old(sent) + [KEYS(pattern)]
      ensures r == if fail then Failed else Ok(Matching(server.db, pattern))
    {
      sent := sent + [KEYS(pattern)];
      if fail {
        r := Failed;
      } else {
        r := Ok(Matching(server.db, pattern));
      }
    }

    /** `del(...keys)`; the reply is the number of keys that existed. */
    method Del(keys: set<string>, fail: bool) returns (r: Reply<nat>)
      modifies this, server
      ensures sent == old(sent) + [DEL(keys)]
      ensures var d := Delete(old(server.db), keys);
        if fail || d.Failed? then r.Failed? && server.db == old(server.db)
        else r == Ok(|keys * old(server.db).Keys|) && server.db == d.value
    {
      sent := sent + [DEL(keys)];
      var d := Delete(server.db, keys);
      if fail || d.Failed? {
        r := Failed;
      } else {
        r := Ok(|keys * server.db.Keys|);
        server.db := d.value;
      }
    }

    /** `incr(key)`; the reply is the new value. */
    method Incr(key: string, fail: bool) returns (r: Reply<int>)
      modifies this, server
      ensures sent == old(sent) + [INCR(key)]
      ensures var a := Add(old(server.db), key, 1);
        if fail || a.Failed? then r.Failed? && server.db == old(server.db)
        else r == Ok(Counter(a.value, key).value) && server.db == a.value
    {
      sent := sent + [INCR(key)];
      var a := Add(server.db, key, 1);
      if fail || a.Failed? {
        r := Failed;
      } else {
        server.db := a.value;
        r := Ok(Counter(a.value, key).value);
      }
    }

    /** `decr(key)`; the reply is the new value. */
    method Decr(key: string, fail: bool) returns (r: Reply<int>)
      modifies this, server
      ensures sent == old(sent) + [DECR(key)]
      ensures var a := Add(old(server.db), key, -1);
        if fail || a.Failed? then r.Failed? && server.db == old(server.db)
        else r == Ok(Counter(a.value, key).value) && server.db == a.value
    {
      sent := sent + [DECR(key)];
      var a := Add(server.db, key, -1);
      if fail || a.Failed? {
        r := Failed;
      } else {
        server.db := a.value;
        r := Ok(Counter(a.value, key).value);
      }
    }
  }
}
