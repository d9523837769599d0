/**
 * The OAuth state cache of the authlib routes (lib/streamlit/web/server/oauth_authlib_routes.py)
 * and the callback's resolution of a returned state code to the provider that issued it.
 * Authlib stores each pending login under a key "_state_<provider>_<code>"; the callback
 * splits every cache key on "_" and maps codes to providers, the later key winning.
 */
module OAuthAuthlibRoutes {
  import opened Base
  import opened PyText

  /** A Python `dict` with string keys: the values by key, and the keys in insertion order. */
  class PyDict<V> {
    var keys: seq<string>
    var values: map<string, V>

    ghost predicate Valid()
      reads this
    {
      && (forall k :: k in values <==> k in keys)
      && (forall i, j :: 0 <= i < j < |keys| ==> keys[i] != keys[j])
    }

    constructor ()
      ensures Valid() && keys == [] && values == map[]
    {
      keys := [];
      values := map[];
    }
  }

  /** `keys` without `key`, the others kept in their order (`dict.pop` on the key order). */
  function Without(keys: seq<string>, key: string): (r: seq<string>)
    ensures forall k :: k in r <==> k in keys && k != key
    ensures (forall i, j :: 0 <= i < j < |keys| ==> keys[i] != keys[j]) ==>
              (forall i, j :: 0 <= i < j < |r| ==> r[i] != r[j])
    decreases |keys|
  {
    if keys == [] then []
    else
      var rest := Without(keys[1..], key);
      assert (forall i, j :: 0 <= i < j < |keys| ==> keys[i] != keys[j]) ==>
        && (forall i, j :: 0 <= i < j < |keys[1..]| ==> keys[1..][i] != keys[1..][j])
        && keys[0] !in rest;
      (if keys[0] == key then [] else [keys[0]]) + rest
  }

  /** `AuthCache`: the cache authlib keeps its pending-login state in. */
  class AuthCache<V> {
    const cache: PyDict<V>

    ghost predicate Valid()
      reads this, cache
    {
      cache.Valid()
    }

    constructor ()
      ensures Valid() && fresh(cache)
      ensures cache.keys == [] && cache.values == map[]
    {
      cache := new PyDict();
    }

    /** `get`: the stored value, or `None` for a key that is absent. */
    function Get(key: string): (r: Option<V>)
      reads this, cache
      requires Valid()
      ensures r.None? <==> key !in cache.keys
      ensures r.Some? ==> key in cache.values && r.value == cache.values[key]
    {
      if key in cache.values then Some(cache.values[key]) else None
    }

    /** `set`: stores `value` under `key`; `expiresIn` is ignored. */
    method Set(key: string, value: V, expiresIn: Option<int>)
      requires Valid()
      modifies cache
      ensures Valid()
      ensures Get(key) == Some(value)
      ensures forall k :: k != key ==> Get(k) == old(Get(k))
      ensures cache.keys == if key in old(cache.keys) then old(cache.keys) else old(cache.keys) + [key]
    {
      if key !in cache.values {
        cache.keys := cache.keys + [key];
      }
      cache.values := cache.values[key := value];
    }

    /** `get_dict`: the dictionary itself, not a copy. */
    function GetDict(): (d: PyDict<V>)
      ensures d == cache
    {
      cache
    }

    /** `delete`: removes `key` if it is there; a missing key is not an error. */
    method Delete(key: string)
      requires Valid()
      modifies cache
      ensures Valid()
      ensures Get(key) == None
      ensures forall k :: k != key ==> Get(k) == old(Get(k))
      ensures cache.keys == Without(old(cache.keys), key)
    {
      cache.keys := Without(cache.keys, key);
      cache.values := cache.values - {key};
    }
  }

  /** Because `get_dict` returns the live dictionary, later writes are seen through it. */
  method GetDictIsLive<V>(authCache: AuthCache<V>, key: string, value: V)
    returns (seenAfterSet: Option<V>, presentAfterDelete: bool)
    requires authCache.Valid()
    modifies authCache.cache
    ensures seenAfterSet == Some(value)
    ensures !presentAfterDelete
  {
    var d := authCache.GetDict();
    authCache.Set(key, value, None);
    seenAfterSet := if key in d.values then Some(d.values[key]) else None;
    authCache.Delete(key);
    presentAfterDelete := key in d.values;
  }

  // ---------------------------------------------------------------- the callback

  /** `_, _, provider, code = key.split("_")` raised: the key has `parts` parts, not four. */
  datatype UnpackError = UnpackError(key: string, parts: nat)

  function ProviderOf(key: string): string
    requires |Split(key, '_')| == 4
  {
    Split(key, '_')[2]
  }

  function CodeOf(key: string): string
    requires |Split(key, '_')| == 4
  {
    Split(key, '_')[3]
  }

  /** `state_provider_mapping` after the loop over `keys`, or the first key that fails to unpack. */
  function StateProviderMapping(keys: seq<string>): Result<map<string, string>, UnpackError>
    decreases |keys|
  {
    if keys == [] then Success(map[])
    else
      match StateProviderMapping(keys[..|keys| - 1])
      case Failure(e) => Failure(e)
      case Success(m) =>
        var key := keys[|keys| - 1];
        var parts := Split(key, '_');
        if |parts| != 4 then Failure(UnpackError(key, |parts|))
        else Success(m[parts[3] := parts[2]])
  }

  /** `state_provider_mapping.get(state_code_from_url, None)` */
  function ResolveProvider(keys: seq<string>, stateCode: string): Result<Option<string>, UnpackError> {
    match StateProviderMapping(keys)
    case Failure(e) => Failure(e)
    case Success(m) => Success(if stateCode in m then Some(m[stateCode]) else None)
  }

  /** The provider-resolving part of `AuthlibCallbackHandler.get`. */
  method ProviderForState<V>(authCache: AuthCache<V>, stateCode: string)
    returns (provider: Result<Option<string>, UnpackError>)
    requires authCache.Valid()
    ensures provider == ResolveProvider(authCache.GetDict().keys, stateCode)
  {
    var currentCacheKeys := authCache.GetDict().keys;
    var stateProviderMapping: map<string, string> := map[];
    for i := 0 to |currentCacheKeys|
      invariant StateProviderMapping(currentCacheKeys[..i]) == Success(stateProviderMapping)
    {
      var key := currentCacheKeys[i];
      var parts := Split(key, '_');
      assert currentCacheKeys[..i + 1][..i] == currentCacheKeys[..i];
      if |parts| != 4 {
        FailurePersists(currentCacheKeys, i + 1);
        return Failure(UnpackError(key, |parts|));
      }
      stateProviderMapping := stateProviderMapping[parts[3] := parts[2]];
    }
    assert currentCacheKeys[..|currentCacheKeys|] == currentCacheKeys;
    provider := Success(if stateCode in stateProviderMapping then Some(stateProviderMapping[stateCode]) else None);
  }

  // ---------------------------------------------------------------- properties

  /** A key unpacks into four parts exactly when it holds three underscores. */
  lemma FourPartsExactly(key: string)
    ensures |Split(key, '_')| == 4 <==> multiset(key)['_'] == 3
  {
    SplitCount(key, '_');
  }

  /** Authlib's key for a pending login unpacks into its provider and its code. */
  lemma AuthlibStateKeyUnpacks(provider: string, code: string)
    requires '_' !in provider && '_' !in code
    ensures var key := "_state_" + provider + "_" + code;
      |Split(key, '_')| == 4 && ProviderOf(key) == provider && CodeOf(key) == code
  {
    var parts := ["", "state", provider, code];
    assert Join(parts, "_") == "_state_" + provider + "_" + code by {
      assert Join(parts[3..], "_") == code;
      assert Join(parts[2..], "_") == provider + "_" + code;
      assert Join(parts[1..], "_") == "state" + "_" + provider + "_" + code;
    }
    SplitJoin(parts, '_');
  }

  /** A provider name with an underscore splits its key into five parts, so the callback fails. */
  lemma UnderscoreInProviderFails(first: string, second: string, code: string, stateCode: string)
    requires '_' !in first && '_' !in second && '_' !in code
    ensures var key := "_state_" + first + "_" + second + "_" + code;
      |Split(key, '_')| == 5 && ResolveProvider([key], stateCode).Failure?
  {
    var key := "_state_" + first + "_" + second + "_" + code;
    var parts := ["", "state", first, second, code];
    assert Join(parts, "_") == key by {
      var t4 := Join(parts[4..], "_");
      assert parts[4..] == [code];
      assert t4 == code;
      assert parts[3..] == [second] + parts[4..];
      var t3 := Join(parts[3..], "_");
      assert t3 == second + "_" + t4;
      assert parts[2..] == [first] + parts[3..];
      var t2 := Join(parts[2..], "_");
      assert t2 == first + "_" + t3;
      assert parts[1..] == ["state"] + parts[2..];
      var t1 := Join(parts[1..], "_");
      assert t1 == "state" + "_" + t2;
      assert Join(parts, "_") == "" + "_" + t1;
    }
    SplitJoin(parts, '_');
    LoneKeyFails(key, stateCode);
  }

  lemma LoneKeyFails(key: string, stateCode: string)
    requires |Split(key, '_')| != 4
    ensures ResolveProvider([key], stateCode) == Failure(UnpackError(key, |Split(key, '_')|))
  {
    assert [key][..0] == [];
    assert StateProviderMapping([key][..0]) == Success(map[]);
    assert StateProviderMapping([key]) == Failure(UnpackError(key, |Split(key, '_')|));
  }

  /** Once a prefix of the keys fails to unpack, the whole loop fails with that key. */
  lemma {:induction false} FailurePersists(keys: seq<string>, i: nat)
    requires i <= |keys|
    requires StateProviderMapping(keys[..i]).Failure?
    ensures StateProviderMapping(keys) == StateProviderMapping(keys[..i])
    decreases |keys| - i
  {
    if i < |keys| {
      assert keys[..i + 1][..i] == keys[..i];
      FailurePersists(keys, i + 1);
    } else {
      assert keys[..i] == keys;
    }
  }

  /** Resolution fails exactly when some key does not unpack, and reports the first such key. */
  lemma {:induction false} UnpackFailsExactly(keys: seq<string>)
    ensures StateProviderMapping(keys).Failure? <==>
      exists i :: 0 <= i < |keys| && |Split(keys[i], '_')| != 4
    ensures StateProviderMapping(keys).Failure? ==>
      exists i :: 0 <= i < |keys| && keys[i] == StateProviderMapping(keys).error.key
        && |Split(keys[i], '_')| != 4
        && forall j :: 0 <= j < i ==> |Split(keys[j], '_')| == 4
    decreases |keys|
  {
    if keys != [] {
      var init := keys[..|keys| - 1];
      UnpackFailsExactly(init);
      assert forall j :: 0 <= j < |init| ==> init[j] == keys[j];
    }
  }

  /** A code maps to the provider of the last key that carries it. */
  lemma {:induction false} LaterKeyWins(keys: seq<string>, i: nat)
    requires StateProviderMapping(keys).Success?
    requires i < |keys|
    requires |Split(keys[i], '_')| == 4
    requires forall j :: i < j < |keys| && |Split(keys[j], '_')| == 4 ==> CodeOf(keys[j]) != CodeOf(keys[i])
    ensures CodeOf(keys[i]) in StateProviderMapping(keys).value
    ensures StateProviderMapping(keys).value[CodeOf(keys[i])] == ProviderOf(keys[i])
    decreases |keys|
  {
    var n := |keys|;
    var init := keys[..n - 1];
    assert StateProviderMapping(init).Success?;
    if i < n - 1 {
      assert init[i] == keys[i];
      forall j | i < j < |init| && |Split(init[j], '_')| == 4 ensures CodeOf(init[j]) != CodeOf(init[i]) {
        assert init[j] == keys[j];
      }
      LaterKeyWins(init, i);
    }
  }

  /** A code that no key carries resolves to `None`; one that some key carries resolves to a provider. */
  lemma {:induction false} UnknownStateIsNone(keys: seq<string>, stateCode: string)
    requires StateProviderMapping(keys).Success?
    ensures ResolveProvider(keys, stateCode) == Success(None) <==>
      forall i :: 0 <= i < |keys| ==> |Split(keys[i], '_')| == 4 && CodeOf(keys[i]) != stateCode
    decreases |keys|
  {
    if keys != [] {
      var n := |keys|;
      var init := keys[..n - 1];
      var last := keys[n - 1];
      assert StateProviderMapping(init).Success?;
      var m := StateProviderMapping(init).value;
      assert |Split(last, '_')| == 4;
      assert StateProviderMapping(keys) == Success(m[CodeOf(last) := ProviderOf(last)]);
      UnknownStateIsNone(init, stateCode);
      assert ResolveProvider(init, stateCode) == Success(None) <==> stateCode !in m;
      assert forall j :: 0 <= j < |init| ==> init[j] == keys[j];
    }
  }
}
