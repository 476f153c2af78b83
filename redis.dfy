/**
 * The Redis cache helpers: a key/value store whose errors are turned into return
 * values (`null` for a read, `false` for a write), and the KEYS glob patterns that
 * pattern deletion uses.
 */
module Redis {
  import opened Wrappers
  import opened Strings

  /** Characters with a meaning in a KEYS pattern. */
  predicate IsGlobMeta(c: char) {
    c == '*' || c == '?' || c == '[' || c == '\\'
  }

  /** A pattern without metacharacters: it matches itself only. */
  predicate Literal(p: string) {
    forall i :: 0 <= i < |p| ==> !IsGlobMeta(p[i])
  }

  /** KEYS pattern matching for `*` (any run of characters) and `?` (one character). */
  function Match(p: string, k: string): bool
    decreases |p| + |k|
  {
    if p == [] then k == []
    else if p[0] == '*' then Match(p[1..], k) || (k != [] && Match(p, k[1..]))
    else if p[0] == '?' then k != [] && Match(p[1..], k[1..])
    else k != [] && p[0] == k[0] && Match(p[1..], k[1..])
  }

  lemma {:induction false} StarMatchesAll(k: string)
    ensures Match("*", k)
    decreases |k|
  {
    if k != [] {
      StarMatchesAll(k[1..]);
    }
  }

  /** A literal pattern matches exactly the key equal to it. */
  lemma {:induction false} LiteralMatch(p: string, k: string)
    requires Literal(p)
    ensures Match(p, k) <==> k == p
    decreases |p|
  {
    if p != [] && k != [] {
      LiteralMatch(p[1..], k[1..]);
      if k == p {
        assert k[1..] == p[1..];
      }
      if p[0] == k[0] && k[1..] == p[1..] {
        assert k == [k[0]] + k[1..];
        assert p == [p[0]] + p[1..];
      }
    }
  }

  /** A literal prefix followed by `*` matches exactly the keys that start with the prefix. */
  lemma {:induction false} PrefixMatch(q: string, k: string)
    requires Literal(q)
    ensures Match(q + "*", k) <==> StartsWith(k, q)
    decreases |q|
  {
    if q == [] {
      assert q + "*" == "*";
      StarMatchesAll(k);
    } else {
      assert (q + "*")[0] == q[0];
      assert (q + "*")[1..] == q[1..] + "*";
      if k != [] {
        PrefixMatch(q[1..], k[1..]);
        if StartsWith(k, q) {
          assert k[1..][..|q| - 1] == k[..|q|][1..];
        }
        if q[0] == k[0] && StartsWith(k[1..], q[1..]) {
          assert k[..|q|] == [k[0]] + k[1..][..|q| - 1];
          assert q == [q[0]] + q[1..];
        }
      }
    }
  }

  /** A cached value and the expiry (seconds) it was stored with. */
  datatype Entry<V> = Entry(value: V, ttl: nat)

  /** The keys of a store that a pattern matches (`redisClient.keys(pattern)`). */
  function MatchingKeys<V>(store: map<string, Entry<V>>, pattern: string): (ks: set<string>)
    ensures forall k :: k in ks <==> k in store && Match(pattern, k)
  {
    set k | k in store && Match(pattern, k)
  }

  /**
   * The Redis client behind `cacheGet`, `cacheSet`, `cacheDel` and `cacheDelPattern`.
   * `fails` says that the client throws on that call (store unreachable).
   * JSON encoding is not modelled: a stored value reads back as itself.
   */
  class Cache<V> {
    var store: map<string, Entry<V>>

    constructor ()
      ensures store == map[]
    {
      store := map[];
    }

    /** `cacheGet`: the stored value, or `null` when the key is absent or the client throws. */
    method Get(key: string, fails: bool) returns (r: Option<V>)
      ensures r.Some? <==> !fails && key in store
      ensures r.Some? ==> r.value == store[key].value
    {
      if fails {
        return None;
      }
      if key in store {
        r := Some(store[key].value);
      } else {
        r := None;
      }
    }

    /** `cacheSet`: `setEx(key, ttl, value)`; true on success, false and no change on error. */
    method Set(key: string, value: V, ttl: nat, fails: bool) returns (ok: bool)
      modifies this
      ensures ok == !fails
      ensures store == if fails then old(store) else old(store)[key := Entry(value, ttl)]
    {
      if fails {
        return false;
      }
      store := store[key := Entry(value, ttl)];
      ok := true;
    }

    /** `cacheDel`: removes one key; other keys are untouched. */
    method Del(key: string, fails: bool) returns (ok: bool)
      modifies this
      ensures ok == !fails
      ensures store == if fails then old(store) else old(store) - {key}
    {
      if fails {
        return false;
      }
      store := store - {key};
      ok := true;
    }

    /**
     * `cacheDelPattern`: removes exactly the keys the pattern matches (nothing when
     * none match); an error is reported as false, never thrown.
     */
    method DelPattern(pattern: string, fails: bool) returns (ok: bool)
      modifies this
      ensures ok == !fails
      ensures store == if fails then old(store) else old(store) - MatchingKeys(old(store), pattern)
    {
      if fails {
        return false;
      }
      var keys := MatchingKeys(store, pattern);
      if keys != {} {
        store := store - keys;
      }
      ok := true;
    }
  }
}
