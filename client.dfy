/**
 * The process-wide Redis handle: built lazily from the two Upstash environment
 * variables on first use and then kept for the life of the process.
 *
 * The environment is a parameter (`Env`), and so is the server the REST URL leads to.
 */
module RedisClient {
  import opened Wrappers
  import opened Backend

  /** `UPSTASH_REDIS_REST_URL` and `UPSTASH_REDIS_REST_TOKEN`, each possibly unset. */
  datatype Env = Env(url: Option<string>, token: Option<string>)

  /** JavaScript truthiness of an environment variable: set and not empty. */
  predicate Configured(v: Option<string>)
  {
    v.Some? && v.value != ""
  }

  /** Whether both credentials are present; this looks only at the environment, never at the handle. */
  function IsRedisAvailable(env: Env): (r: bool)
    ensures r <==> env.url.Some? && env.token.Some? && |env.url.value| > 0 && |env.token.value| > 0
  {
    Configured(env.url) && Configured(env.token)
  }

  /** Holder of the memoised handle (the module-level `redis` variable). */
  class ClientAccessor {
    var memo: Client?

    constructor()
      ensures memo == null
    {
      memo := null;
    }

    /**
     * Returns the memoised handle if there is one. Otherwise, with both credentials
     * present it builds a handle on them, remembers it and returns it; with either one
     * missing or empty it returns null and remembers nothing, so a later call looks
     * at the environment again.
     */
    method GetRedisClient(env: Env, remote: Server) returns (c: Client?)
      modifies this
      ensures old(memo) != null ==> c == old(memo) && memo == old(memo)
      ensures old(memo) == null && !IsRedisAvailable(env) ==> c == null && memo == null
      ensures old(memo) == null && IsRedisAvailable(env) ==>
        c != null && fresh(c) && memo == c &&
        c.url == env.url.value && c.token == env.token.value && c.server == remote && c.sent == []
    {
      if memo != null {
        return memo;
      }
      if !Configured(env.url) || !Configured(env.token) {
        return null;
      }
      memo := new Client(env.url.value, env.token.value, remote);
      c := memo;
    }
  }

  /**
   * Two calls in a row return the same handle, whatever the environment says at the
   * second call, as soon as the first one returned a handle.
   */
  method MemoIsStable(a: ClientAccessor, env1: Env, env2: Env, remote1: Server, remote2: Server)
    returns (c1: Client?, c2: Client?)
    modifies a
    ensures c1 != null ==> c2 == c1
    ensures old(a.memo) == null ==> (c1 != null <==> IsRedisAvailable(env1))
  {
    c1 := a.GetRedisClient(env1, remote1);
    c2 := a.GetRedisClient(env2, remote2);
  }
}
