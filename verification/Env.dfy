/** The container environment: an allowlist merged with agent-injected values, validated and bounded. */
module Env {
  import opened Text
  import opened Ordering

  const DENIED: set<string> := {
    "PATH", "LD_PRELOAD", "LD_LIBRARY_PATH", "LD_AUDIT", "HOME", "USER", "SHELL", "BASH_ENV", "ENV", "IFS",
    "NODE_OPTIONS", "PYTHONPATH", "PYTHONSTARTUP", "JAVA_TOOL_OPTIONS", "_JAVA_OPTIONS", "JDK_JAVA_OPTIONS",
    "PERL5OPT", "RUBYOPT", "GCONV_PATH", "TMPDIR", "LD_ASSUME_KERNEL", "LD_ORIGIN_PATH"}

  const MAX_VALUE_BYTES: nat := 4096
  const MAX_TOTAL_BYTES: nat := 64 * 1024

  type Vars = map<string, string>

  /** `^[A-Z][A-Z0-9_]{0,63}$`. */
  predicate KeyOk(key: string) {
    && 0 < |key| <= 64 && 'A' <= key[0] <= 'Z'
    && forall i :: 0 <= i < |key| ==> 'A' <= key[i] <= 'Z' || '0' <= key[i] <= '9' || key[i] == '_'
  }

  predicate EntryOk(key: string, value: string, enforceDenylist: bool) {
    && !(enforceDenylist && key in DENIED)
    && KeyOk(key)
    && '\0' !in value && '\n' !in value && '\r' !in value
    && Utf8Len(value) <= MAX_VALUE_BYTES
  }

  function Cost(key: string, value: string): nat {
    Utf8Len(key) + Utf8Len(value) + 1
  }

  /** The bytes an environment takes, whatever order it is listed in. */
  ghost function Total(m: Vars): nat {
    if m == map[] then 0
    else
      var k :| k in m;
      Cost(k, m[k]) + Total(m - {k})
  }

  lemma {:induction false} TotalRemove(m: Vars, k: string)
    requires k in m
    ensures Total(m) == Cost(k, m[k]) + Total(m - {k})
    decreases |m|
  {
    var k0 :| k0 in m && Total(m) == Cost(k0, m[k0]) + Total(m - {k0});
    if k != k0 {
      TotalRemove(m - {k0}, k);
      TotalRemove(m - {k}, k0);
      assert m - {k0} - {k} == m - {k} - {k0};
    }
  }

  lemma {:induction false} TotalSet(m: Vars, k: string, v: string)
    ensures Total(m[k := v]) == (if k in m then Total(m) - Cost(k, m[k]) else Total(m)) + Cost(k, v)
  {
    TotalRemove(m[k := v], k);
    if k in m {
      TotalRemove(m, k);
      assert m[k := v] - {k} == m - {k};
    } else {
      assert m[k := v] - {k} == m;
    }
  }

  // ----- what the build must produce -----

  /** The customer's values the template declares. */
  function Kept(declared: seq<string>, vars: Vars): Vars {
    map k | k in vars && k in declared :: vars[k]
  }

  /** Injected values win. */
  function Merged(declared: seq<string>, vars: Vars, injected: Vars): Vars {
    Kept(declared, vars) + injected
  }

  ghost predicate EnvOk(declared: seq<string>, vars: Vars, injected: Vars) {
    && (forall k :: k in Kept(declared, vars) ==> EntryOk(k, vars[k], true))
    && (forall k :: k in injected ==> EntryOk(k, injected[k], false))
    && Total(Merged(declared, vars, injected)) <= MAX_TOTAL_BYTES
  }

  /** `KEY=VALUE` in key order. */
  ghost predicate IsListing(env: seq<string>, m: Vars) {
    exists keys :: Sorted(StringLess, keys) && (forall k :: k in keys <==> k in m) && env == Rendered(keys, m)
  }

  function Rendered(keys: seq<string>, m: Vars): (env: seq<string>)
    ensures |env| == |keys|
  {
    seq(|keys|, i requires 0 <= i < |keys| => keys[i] + "=" + (if keys[i] in m then m[keys[i]] else ""))
  }

  /** An environment has one listing, so map order never shows. */
  lemma {:induction false} ListingUnique(a: seq<string>, b: seq<string>, m: Vars)
    requires IsListing(a, m) && IsListing(b, m)
    ensures a == b
  {
    StringOrder();
    var ka :| Sorted(StringLess, ka) && (forall k :: k in ka <==> k in m) && a == Rendered(ka, m);
    var kb :| Sorted(StringLess, kb) && (forall k :: k in kb <==> k in m) && b == Rendered(kb, m);
    SortedUnique(StringLess, ka, kb);
  }

  // ----- BuildEnv -----

  /** The customer's values: drop what is not declared, refuse what is not valid. */
  method KeepDeclared(declared: seq<string>, vars: Vars)
      returns (ok: bool, merged: Vars, total: int, dropped: set<string>)
    ensures ok <==> forall k :: k in Kept(declared, vars) ==> EntryOk(k, vars[k], true)
    ensures ok ==> merged == Kept(declared, vars) && total == Total(merged)
    ensures ok ==> dropped == set k | k in vars && k !in declared
  {
    merged, total, dropped := map[], 0, {};
    var todo := vars.Keys;
    while todo != {}
      invariant todo <= vars.Keys
      invariant forall k :: k in merged <==> k in vars && k in declared && k !in todo
      invariant forall k :: k in merged ==> merged[k] == vars[k] && EntryOk(k, vars[k], true)
      invariant total == Total(merged)
      invariant forall k :: k in dropped <==> k in vars && k !in declared && k !in todo
      decreases |todo|
    {
      var k :| k in todo;
      todo := todo - {k};
      if k !in declared {
        dropped := dropped + {k};
      } else {
        if !EntryOk(k, vars[k], true) {
          assert k in Kept(declared, vars);
          return false, merged, total, dropped;
        }
        TotalSet(merged, k, vars[k]);
        merged := merged[k := vars[k]];
        total := total + Cost(k, vars[k]);
      }
    }
    ok := true;
    assert merged == Kept(declared, vars);
  }

  /** The injected values, each replacing a kept one of the same name. */
  method AddInjected(kept: Vars, size: int, injected: Vars) returns (ok: bool, merged: Vars, total: int)
    requires size == Total(kept)
    ensures ok <==> forall k :: k in injected ==> EntryOk(k, injected[k], false)
    ensures ok ==> merged == kept + injected && total == Total(merged)
  {
    merged, total := kept, size;
    var todo, done := injected.Keys, {};
    PartEnds(kept, injected);
    while todo != {}
      invariant done == injected.Keys - todo && todo <= injected.Keys
      invariant merged == kept + Part(injected, done)
      invariant forall k :: k in done ==> EntryOk(k, injected[k], false)
      invariant total == Total(merged)
      decreases |todo|
    {
      var k :| k in todo;
      if !EntryOk(k, injected[k], false) {
        return false, merged, total;
      }
      TotalSet(merged, k, injected[k]);
      PartStep(kept, injected, done, k);
      if k in merged {
        total := total - Cost(k, merged[k]);
      }
      merged := merged[k := injected[k]];
      total := total + Cost(k, injected[k]);
      todo, done := todo - {k}, done + {k};
    }
    assert done == injected.Keys;
    ok := true;
  }

  lemma {:induction false} PartEnds(kept: Vars, injected: Vars)
    ensures kept + Part(injected, {}) == kept && Part(injected, injected.Keys) == injected
  {
  }

  /** The injected values already merged. */
  function Part(injected: Vars, done: set<string>): Vars {
    map k | k in injected && k in done :: injected[k]
  }

  lemma {:induction false} PartStep(kept: Vars, injected: Vars, done: set<string>, k: string)
    requires k in injected
    ensures kept + Part(injected, done + {k}) == (kept + Part(injected, done))[k := injected[k]]
  {
  }

  method BuildEnv(declared: seq<string>, vars: Vars, injected: Vars)
      returns (ok: bool, env: seq<string>, dropped: seq<string>)
    ensures ok <==> EnvOk(declared, vars, injected)
    ensures ok ==> IsListing(env, Merged(declared, vars, injected))
    ensures ok ==> Sorted(StringLess, dropped) && forall k :: k in dropped <==> k in vars && k !in declared
  {
    env, dropped := [], [];
    var merged, total, unlisted;
    ok, merged, total, unlisted := KeepDeclared(declared, vars);
    if !ok {
      return;
    }
    ok, merged, total := AddInjected(merged, total, injected);
    if !ok {
      return;
    }
    if total > MAX_TOTAL_BYTES {
      return false, [], [];
    }
    StringOrder();
    var keys := SortedElements(StringLess, merged.Keys);
    env := Rendered(keys, merged);
    dropped := SortedElements(StringLess, unlisted);
  }

  // ----- reading it back -----

  /** splitEnvKV: cut at the first `=`. */
  method SplitEnvKV(kv: string) returns (k: string, v: string)
    ensures '=' !in k
    ensures if '=' in kv then kv == k + "=" + v else k == kv && v == ""
  {
    for i := 0 to |kv|
      invariant '=' !in kv[..i]
    {
      if kv[i] == '=' {
        assert kv == kv[..i] + [kv[i]] + kv[i + 1..];
        return kv[..i], kv[i + 1..];
      }
    }
    assert kv[..|kv|] == kv;
    return kv, "";
  }

  lemma {:induction false} CutUnique(k: string, v: string, k': string, v': string)
    requires '=' !in k && '=' !in k' && k + "=" + v == k' + "=" + v'
    ensures k == k' && v == v'
  {
    var s := k + "=" + v;
    assert s[|k|] == '=' && s[|k'|] == '=';
    assert forall i :: 0 <= i < |k| ==> s[i] == k[i];
    assert forall i :: 0 <= i < |k'| ==> s[i] == k'[i];
    assert k == s[..|k|] && k' == s[..|k'|] && v == s[|k| + 1..] && v' == s[|k'| + 1..];
  }

  /** Every entry of a listing split back into a map. */
  method ParseListing(env: seq<string>, ghost keys: seq<string>, ghost m: Vars) returns (envMap: Vars)
    requires env == Rendered(keys, m) && (forall k :: k in keys <==> k in m)
    requires forall k :: k in m ==> '=' !in k
    ensures envMap == m
  {
    envMap := map[];
    for i := 0 to |env|
      invariant forall k :: k in envMap <==> k in keys[..i]
      invariant forall k :: k in envMap ==> k in m && envMap[k] == m[k]
    {
      var k, v := SplitEnvKV(env[i]);
      assert keys[i] in keys;
      EntrySplits(env[i], k, v, keys[i], m[keys[i]]);
      envMap := envMap[k := v];
      assert keys[..i + 1] == keys[..i] + [keys[i]];
    }
    assert keys[..|keys|] == keys;
  }

  lemma {:induction false} EntrySplits(kv: string, k: string, v: string, key: string, value: string)
    requires kv == key + "=" + value && '=' !in key && '=' !in k
    requires if '=' in kv then kv == k + "=" + v else k == kv && v == ""
    ensures k == key && v == value
  {
    assert kv[|key|] == '=';
    CutUnique(k, v, key, value);
  }

  lemma {:induction false} NoEqualsInKeys(declared: seq<string>, vars: Vars, injected: Vars)
    requires EnvOk(declared, vars, injected)
    ensures forall k :: k in Merged(declared, vars, injected) ==> '=' !in k
  {
    forall k | k in Merged(declared, vars, injected) ensures '=' !in k {
      assert k in injected || k in Kept(declared, vars);
      assert KeyOk(k);
    }
  }

  /** buildEnvMap: build the listing and split every entry back into a map. */
  method BuildEnvMap(declared: seq<string>, vars: Vars, injected: Vars) returns (r: Outcome<Vars>)
    ensures r.Ok? <==> EnvOk(declared, vars, injected)
    ensures r.Ok? ==> r.value == Merged(declared, vars, injected)
  {
    var ok, env, dropped := BuildEnv(declared, vars, injected);
    if !ok {
      return Err("invalid environment");
    }
    ghost var m := Merged(declared, vars, injected);
    ghost var keys :| Sorted(StringLess, keys) && (forall k :: k in keys <==> k in m) && env == Rendered(keys, m);
    NoEqualsInKeys(declared, vars, injected);
    var envMap := ParseListing(env, keys, m);
    return Ok(envMap);
  }

  /** The merged environment, fed back as injected values, is accepted and unchanged. */
  lemma {:induction false} InstallAccepts(declared: seq<string>, vars: Vars, injected: Vars)
    requires EnvOk(declared, vars, injected)
    ensures var m := Merged(declared, vars, injected);
      EnvOk([], map[], m) && Merged([], map[], m) == m
  {
    var m := Merged(declared, vars, injected);
    assert Kept([], map[]) == map[];
    assert map[] + m == m;
    forall k | k in m ensures EntryOk(k, m[k], false) {
      assert k in injected || k in Kept(declared, vars);
    }
  }

  // ----- what an accepted listing holds -----

  /** Every entry is `KEY=VALUE` with a plain key and a bounded one-line value; no denied key comes from the customer. */
  lemma {:induction false} AcceptedEntries(declared: seq<string>, vars: Vars, injected: Vars, env: seq<string>, i: nat)
      returns (k: string, v: string)
    requires EnvOk(declared, vars, injected) && IsListing(env, Merged(declared, vars, injected)) && i < |env|
    ensures env[i] == k + "=" + v
    ensures k in injected ==> v == injected[k]
    ensures k !in injected ==> k in vars && k in declared && v == vars[k]
    ensures 1 <= |k| <= 64 && 'A' <= k[0] <= 'Z'
    ensures forall j :: 0 <= j < |k| ==> 'A' <= k[j] <= 'Z' || '0' <= k[j] <= '9' || k[j] == '_'
    ensures '\0' !in v && '\n' !in v && '\r' !in v && Utf8Len(v) <= 4096
    ensures k !in injected ==>
      k !in {"PATH", "LD_PRELOAD", "LD_LIBRARY_PATH", "LD_AUDIT", "HOME", "USER", "SHELL", "BASH_ENV", "ENV", "IFS",
             "NODE_OPTIONS", "PYTHONPATH", "PYTHONSTARTUP", "JAVA_TOOL_OPTIONS", "_JAVA_OPTIONS", "JDK_JAVA_OPTIONS",
             "PERL5OPT", "RUBYOPT", "GCONV_PATH", "TMPDIR", "LD_ASSUME_KERNEL", "LD_ORIGIN_PATH"}
  {
    k, v := ListedEntry(declared, vars, injected, env, i);
    EntrySays(k, v, k !in injected);
  }

  lemma {:induction false} ListedEntry(declared: seq<string>, vars: Vars, injected: Vars, env: seq<string>, i: nat)
      returns (k: string, v: string)
    requires EnvOk(declared, vars, injected) && IsListing(env, Merged(declared, vars, injected)) && i < |env|
    ensures env[i] == k + "=" + v && EntryOk(k, v, k !in injected)
    ensures k in injected ==> v == injected[k]
    ensures k !in injected ==> k in vars && k in declared && v == vars[k]
  {
    var m := Merged(declared, vars, injected);
    var keys :| Sorted(StringLess, keys) && (forall k :: k in keys <==> k in m) && env == Rendered(keys, m);
    k := keys[i];
    assert k in keys;
    v := m[k];
    assert k !in injected ==> k in Kept(declared, vars);
  }

  /** What an entry that passes the checks looks like, and that every such entry passes. */
  lemma {:induction false} EntrySays(k: string, v: string, customer: bool)
    ensures EntryOk(k, v, customer) <==>
      && 1 <= |k| <= 64 && 'A' <= k[0] <= 'Z'
      && (forall j :: 0 <= j < |k| ==> 'A' <= k[j] <= 'Z' || '0' <= k[j] <= '9' || k[j] == '_')
      && '\0' !in v && '\n' !in v && '\r' !in v && Utf8Len(v) <= 4096
      && (customer ==>
            k !in {"PATH", "LD_PRELOAD", "LD_LIBRARY_PATH", "LD_AUDIT", "HOME", "USER", "SHELL", "BASH_ENV", "ENV", "IFS",
                   "NODE_OPTIONS", "PYTHONPATH", "PYTHONSTARTUP", "JAVA_TOOL_OPTIONS", "_JAVA_OPTIONS", "JDK_JAVA_OPTIONS",
                   "PERL5OPT", "RUBYOPT", "GCONV_PATH", "TMPDIR", "LD_ASSUME_KERNEL", "LD_ORIGIN_PATH"})
  {
  }

  /** The bytes of a listing, without separators. */
  function Bytes(env: seq<string>): nat {
    if env == [] then 0 else Bytes(env[..|env| - 1]) + Utf8Len(env[|env| - 1])
  }

  lemma {:induction false} EntryBytes(k: string, v: string)
    ensures Utf8Len(k + "=" + v) == Cost(k, v)
  {
    Utf8Append(k + "=", v);
    Utf8Append(k, "=");
    assert Utf8Len("=") == 1;
  }

  lemma {:induction false} RenderedBytes(keys: seq<string>, m: Vars)
    requires (forall k :: k in keys <==> k in m) && (forall i, j :: 0 <= i < j < |keys| ==> keys[i] != keys[j])
    ensures Bytes(Rendered(keys, m)) == Total(m)
    decreases |keys|
  {
    if keys == [] {
      assert m == map[];
    } else {
      var n := |keys| - 1;
      var k, init := keys[n], keys[..n];
      assert k in keys;
      TotalRemove(m, k);
      WithoutLast(keys, m);
      RenderedBytes(init, m - {k});
      EntryBytes(k, m[k]);
    }
  }

  lemma {:induction false} WithoutLast(keys: seq<string>, m: Vars)
    requires keys != []
    requires (forall k :: k in keys <==> k in m) && (forall i, j :: 0 <= i < j < |keys| ==> keys[i] != keys[j])
    ensures var n := |keys| - 1;
      && (forall j :: j in keys[..n] <==> j in m - {keys[n]})
      && Rendered(keys, m)[..n] == Rendered(keys[..n], m - {keys[n]})
  {
    var n := |keys| - 1;
    var init, k := keys[..n], keys[n];
    assert keys == init + [k];
    forall i | 0 <= i < n ensures init[i] in m - {k} {
      assert keys[i] in keys;
    }
  }

  /** An accepted listing takes at most 64 KiB. */
  lemma {:induction false} AcceptedBytes(declared: seq<string>, vars: Vars, injected: Vars, env: seq<string>)
    requires EnvOk(declared, vars, injected) && IsListing(env, Merged(declared, vars, injected))
    ensures Bytes(env) <= 65536
  {
    var m := Merged(declared, vars, injected);
    var keys :| Sorted(StringLess, keys) && (forall k :: k in keys <==> k in m) && env == Rendered(keys, m);
    StringOrder();
    forall i, j | 0 <= i < j < |keys| ensures keys[i] != keys[j] {
      assert StringLess(keys[i], keys[j]);
    }
    RenderedBytes(keys, m);
  }
}
