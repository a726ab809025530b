/** The operating system's random source: a pool of bytes that may run dry. */
module Random {
  import opened Prelude

  class Entropy {
    var pool: Bytes

    constructor (pool: Bytes)
      ensures this.pool == pool
    {
      this.pool := pool;
    }

    /** `getrandom`: the next `n` bytes, or an error that consumes nothing. */
    method Draw(n: nat) returns (r: Result<Bytes>)
      modifies this
      ensures r == if n <= |old(pool)| then Ok(old(pool)[..n]) else Err(Rng)
      ensures pool == if r.Ok? then old(pool)[n..] else old(pool)
    {
      if |pool| < n {
        return Err(Rng);
      }
      r := Ok(pool[..n]);
      pool := pool[n..];
    }
  }
}
