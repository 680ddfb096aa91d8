/** The process environment and the indexed configuration keys
    (`PREFIX_0_NAME`, `PREFIX_1_NAME`, …) that several modules read at
    construction. */
module Config {
  import opened Common

  /** The process environment: variable name to value. An absent key is an
      unset variable (`env::var` returning `Err`). */
  type Env = map<string, string>

  /** Indexed lists are read from index 0 up to at most this many entries. */
  const MAX_INDEXED: nat := 100

  /** `format!("{prefix}{i}{suffix}")`. */
  function IndexedKey(prefix: string, i: nat, suffix: string): string
  {
    prefix + NatToString(i) + suffix
  }

  /** The `for i in 0..100` loop that reads two variables per index and stops
      at the first index where either is unset. */
  method ReadIndexedPairs(env: Env, prefix: string, first: string, second: string)
    returns (pairs: seq<(string, string)>)
    ensures |pairs| <= MAX_INDEXED
    ensures forall k :: 0 <= k < |pairs| ==>
      && IndexedKey(prefix, k, first) in env && IndexedKey(prefix, k, second) in env
      && pairs[k] == (env[IndexedKey(prefix, k, first)], env[IndexedKey(prefix, k, second)])
    ensures |pairs| < MAX_INDEXED ==>
      !(IndexedKey(prefix, |pairs|, first) in env && IndexedKey(prefix, |pairs|, second) in env)
  {
    pairs := [];
    var i := 0;
    while i < MAX_INDEXED
      invariant 0 <= i <= MAX_INDEXED && |pairs| == i
      invariant forall k :: 0 <= k < i ==>
        && IndexedKey(prefix, k, first) in env && IndexedKey(prefix, k, second) in env
        && pairs[k] == (env[IndexedKey(prefix, k, first)], env[IndexedKey(prefix, k, second)])
    {
      var a := IndexedKey(prefix, i, first);
      var b := IndexedKey(prefix, i, second);
      if !(a in env && b in env) {
        return;
      }
      pairs := pairs + [(env[a], env[b])];
      i := i + 1;
    }
  }

  /** The same loop over a single variable per index. */
  method ReadIndexedValues(env: Env, prefix: string, suffix: string) returns (values: seq<string>)
    ensures |values| <= MAX_INDEXED
    ensures forall k :: 0 <= k < |values| ==>
      IndexedKey(prefix, k, suffix) in env && values[k] == env[IndexedKey(prefix, k, suffix)]
    ensures |values| < MAX_INDEXED ==> IndexedKey(prefix, |values|, suffix) !in env
  {
    values := [];
    var i := 0;
    while i < MAX_INDEXED
      invariant 0 <= i <= MAX_INDEXED && |values| == i
      invariant forall k :: 0 <= k < i ==>
        IndexedKey(prefix, k, suffix) in env && values[k] == env[IndexedKey(prefix, k, suffix)]
    {
      var key := IndexedKey(prefix, i, suffix);
      if key !in env {
        return;
      }
      values := values + [env[key]];
      i := i + 1;
    }
  }
}
