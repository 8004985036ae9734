/** Cache-key helpers of `internal/oauth/client/repository.go`. */
module ClientKeys {

  /** `GetClientScopeListKey`: the cache key of one client's derived scope tree. */
  function GetClientScopeListKey(clientId: string): (key: string)
    ensures |key| == |clientId| + 18
  {
    "client:" + clientId + ":scope_list"
  }

  /** Distinct client ids give distinct cache keys. */
  lemma ClientScopeListKeyInjective(a: string, b: string)
    requires GetClientScopeListKey(a) == GetClientScopeListKey(b)
    ensures a == b
  {
    var ka := GetClientScopeListKey(a);
    assert ka[7..|ka| - 11] == a;
    assert GetClientScopeListKey(b)[7..|ka| - 11] == b;
  }
}

/** Cache-key helpers of `internal/oauth/scope/repository.go`. */
module ScopeKeys {
  import opened Errors
  import opened ClientKeys

  /** `GetScopeHashKey`: the hash holding the endpoint-to-scope lookup entries. It shares
      the key space with the per-client keys but is never one of them. */
  function GetScopeHashKey(): (key: string)
    ensures key == "scope"
    ensures forall clientId :: key != GetClientScopeListKey(clientId)
  {
    "scope"
  }

  /** `GetScopeKey`: the field of one endpoint (path and HTTP method) in that hash. */
  function GetScopeKey(path: string, httpMethod: string): (key: string)
    ensures |key| == |path| + |httpMethod| + 1 && key[|path|] == ':'
  {
    path + ":" + httpMethod
  }

  /** Index of the last ':' of `s`, if any. */
  function LastColon(s: string): (r: Option<nat>)
    ensures r.Some? ==> r.value < |s| && s[r.value] == ':' && ':' !in s[r.value + 1..]
    ensures r.None? ==> ':' !in s
  {
    if |s| == 0 then None
    else if s[|s| - 1] == ':' then Some(|s| - 1)
    else
      var r := LastColon(s[..|s| - 1]);
      assert s == s[..|s| - 1] + [s[|s| - 1]];
      r
  }

  /** Splits a lookup field at its last ':' into (path, method). */
  function SplitScopeKey(key: string): (r: Option<(string, string)>)
  {
    match LastColon(key)
    case None => None
    case Some(i) => Some((key[..i], key[i + 1..]))
  }

  /** A lookup field determines its endpoint when the method has no ':' (paths may). */
  lemma ScopeKeyRecoverable(path: string, httpMethod: string)
    requires ':' !in httpMethod
    ensures SplitScopeKey(GetScopeKey(path, httpMethod)) == Some((path, httpMethod))
  {
    var key := GetScopeKey(path, httpMethod);
    assert key[|path| + 1..] == httpMethod;
    assert key[..|path|] == path;
    assert ':' in key by { assert key[|path|] == ':'; }
    var i := LastColon(key).value;
    assert i == |path|;
  }
}

/** Redis-style glob matching, for the patterns these services build: `*` matches any run of
    characters and every other character matches itself. */
module Glob {

  predicate Match(pattern: string, s: string)
    decreases |pattern| + |s|
  {
    if |pattern| == 0 then |s| == 0
    else if pattern[0] == '*' then Match(pattern[1..], s) || (|s| > 0 && Match(pattern, s[1..]))
    else |s| > 0 && s[0] == pattern[0] && Match(pattern[1..], s[1..])
  }

  /** A pattern without `*` matches only itself. */
  lemma {:induction false} MatchLiteral(lit: string, s: string)
    requires '*' !in lit
    ensures Match(lit, s) <==> s == lit
    decreases |lit|
  {
    if |lit| > 0 && |s| > 0 {
      MatchLiteral(lit[1..], s[1..]);
      if s[0] == lit[0] && s[1..] == lit[1..] {
        assert s == [s[0]] + s[1..] && lit == [lit[0]] + lit[1..];
      }
    }
  }

  /** A literal prefix of the pattern consumes the same prefix of the string. */
  lemma {:induction false} MatchLiteralPrefix(lit: string, pattern: string, s: string)
    requires '*' !in lit
    ensures Match(lit + pattern, s) <==> |s| >= |lit| && s[..|lit|] == lit && Match(pattern, s[|lit|..])
    decreases |lit|
  {
    if |lit| > 0 {
      assert (lit + pattern)[1..] == lit[1..] + pattern;
      assert (lit + pattern)[0] == lit[0];
      if |s| > 0 {
        MatchLiteralPrefix(lit[1..], pattern, s[1..]);
        if |s| >= |lit| {
          assert s[1..][|lit| - 1..] == s[|lit|..];
          assert s[..|lit|] == [s[0]] + s[1..][..|lit| - 1];
          assert lit == [lit[0]] + lit[1..];
        }
      }
    } else {
      assert lit + pattern == pattern;
    }
  }

  /** `*` followed by a literal suffix matches exactly the strings ending in that suffix. */
  lemma {:induction false} MatchStarSuffix(suffix: string, s: string)
    requires '*' !in suffix
    ensures Match("*" + suffix, s) <==> |s| >= |suffix| && s[|s| - |suffix|..] == suffix
    decreases |s|
  {
    var p := "*" + suffix;
    assert p[1..] == suffix;
    MatchLiteral(suffix, s);
    if |s| > 0 {
      MatchStarSuffix(suffix, s[1..]);
      if |s| - 1 >= |suffix| {
        assert s[1..][|s| - 1 - |suffix|..] == s[|s| - |suffix|..];
      }
      if |s| == |suffix| {
        assert s[|s| - |suffix|..] == s;
      }
    } else if |suffix| == 0 {
      assert s[|s| - |suffix|..] == s;
    }
  }
}

/** Which Redis keys the cache invalidations of the client and scope services touch
    (`internal/oauth/client/repository/redis.go`, `internal/oauth/scope/repository/redis.go`). */
module CacheKeys {
  import opened Errors
  import opened ClientKeys
  import opened ScopeKeys
  import Glob

  /** The calls of the two cache interfaces. */
  datatype CacheCall =
    | DeleteClientScopeList(clientId: string)
    | DeleteAllClientScopeList
    | DeleteScopeLookup(path: string, httpMethod: string)

  /** The Redis command each call issues. */
  datatype RedisCommand =
    | Del(keys: seq<string>)
    | ScanDel(pattern: string)
    | HDel(hashKey: string, field: string)

  /** A client invalidation deletes only that client's key, the sweep scans for the
      per-client pattern, and an endpoint invalidation deletes the endpoint's field of the
      lookup hash, from which the endpoint can be read back. */
  function CommandOf(call: CacheCall): (cmd: RedisCommand)
    ensures cmd.Del? <==> call.DeleteClientScopeList?
    ensures cmd.ScanDel? <==> call.DeleteAllClientScopeList?
    ensures call.DeleteClientScopeList? ==>
      |cmd.keys| > 0 && forall k :: k in cmd.keys ==> k == GetClientScopeListKey(call.clientId)
    ensures call.DeleteAllClientScopeList? ==> cmd.pattern == GetClientScopeListKey("*")
    ensures call.DeleteScopeLookup? ==>
      && cmd.HDel? && cmd.hashKey == GetScopeHashKey()
      && (':' !in call.httpMethod ==> SplitScopeKey(cmd.field) == Some((call.path, call.httpMethod)))
  {
    match call
    case DeleteClientScopeList(clientId) =>
      var key := GetClientScopeListKey(clientId); Del([key, key])
    case DeleteAllClientScopeList => ScanDel(GetClientScopeListKey("*"))
    case DeleteScopeLookup(path, httpMethod) =>
      var cmd := HDel(GetScopeHashKey(), GetScopeKey(path, httpMethod));
      if ':' in httpMethod then cmd else ScopeKeyRecoverable(path, httpMethod); cmd
  }

  /** The keys a command removes from a store holding `keys`. */
  ghost function RemovedKeys(command: RedisCommand, keys: set<string>): set<string>
    requires !command.HDel?
  {
    match command
    case Del(ks) => set k | k in keys && k in ks
    case ScanDel(pattern) => set k | k in keys && Glob.Match(pattern, k)
  }

  /** The sweep pattern `client:*:scope_list` matches exactly the per-client keys. */
  lemma SweepMatchesExactlyClientKeys(key: string)
    ensures Glob.Match(GetClientScopeListKey("*"), key) <==> exists id :: key == GetClientScopeListKey(id)
  {
    var pattern := GetClientScopeListKey("*");
    assert pattern == "client:" + ("*" + ":scope_list");
    Glob.MatchLiteralPrefix("client:", "*" + ":scope_list", key);
    if |key| >= 7 {
      Glob.MatchStarSuffix(":scope_list", key[7..]);
    }
    if Glob.Match(pattern, key) {
      var id := key[7..|key| - 11];
      assert key == GetClientScopeListKey(id);
    }
    if exists id :: key == GetClientScopeListKey(id) {
      var id :| key == GetClientScopeListKey(id);
      assert key[..7] == "client:";
      assert key[7..][|key[7..]| - 11..] == ":scope_list";
    }
  }

  /** The single-client invalidation removes exactly that client's key. */
  lemma ClientInvalidationRemovesOneKey(clientId: string, keys: set<string>)
    ensures RemovedKeys(CommandOf(DeleteClientScopeList(clientId)), keys)
      == keys * {GetClientScopeListKey(clientId)}
  {
  }

  /** The catalog-wide invalidation removes every per-client key and nothing else. */
  lemma SweepRemovesAllClientKeys(keys: set<string>)
    ensures RemovedKeys(CommandOf(DeleteAllClientScopeList), keys)
      == set k | k in keys && exists id :: k == GetClientScopeListKey(id)
  {
    forall k | k in keys
      ensures Glob.Match(GetClientScopeListKey("*"), k) <==> exists id :: k == GetClientScopeListKey(id)
    {
      SweepMatchesExactlyClientKeys(k);
    }
  }

  /** The endpoint invalidation removes field `path:method` from hash `scope`. */
  lemma EndpointInvalidationTarget(path: string, httpMethod: string)
    ensures CommandOf(DeleteScopeLookup(path, httpMethod)) == HDel("scope", path + ":" + httpMethod)
  {
  }
}
