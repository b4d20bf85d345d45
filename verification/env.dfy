/** The environment variable sets of go-util's `env` package: a Go map from
    names to values. */
module EnvVars {
  import opened Wrappers
  import opened GoStrings
  import opened LoggerUtil
  import GoUtil
  import StringSets

  type Vars = map<String, String>

  const VarServiceEnv: String := "SERVICE_ENV"
  const ServiceEnvPreprod: String := "preprod"
  const ServiceEnvBeta: String := "beta"
  const ServiceEnvProd: String := "prod"

  // ---------------------------------------------------------------------
  // Reading the process environment
  // ---------------------------------------------------------------------

  /** `strings.SplitN(entry, "=", 2)` kept only when it gives two parts: the
      name before the first '=' and the value after it. */
  function EnvEntry(entry: String): (r: Option<(String, String)>)
    ensures r.None? <==> '=' !in entry
    ensures r.Some? ==> '=' !in r.value.0 && entry == r.value.0 + "=" + r.value.1
  {
    if '=' in entry then
      var i := FirstIndex(entry, '=');
      assert entry == entry[..i] + "=" + entry[i + 1..];
      Some((entry[..i], entry[i + 1..]))
    else None
  }

  /** `NewVarsFromEnvironment` on the entries `os.Environ` lists, in order. */
  function FromEnvironment(environ: seq<String>): (r: Vars)
    ensures forall name :: name in r ==> '=' !in name
    decreases |environ|
  {
    if |environ| == 0 then map[]
    else
      var vars := FromEnvironment(environ[..|environ| - 1]);
      match EnvEntry(environ[|environ| - 1])
      case None => vars
      case Some((name, value)) => vars[name := value]
  }

  predicate Carries(entry: String, name: String) {
    EnvEntry(entry).Some? && EnvEntry(entry).value.0 == name
  }

  predicate SomeEntryCarries(environ: seq<String>, name: String) {
    exists i :: 0 <= i < |environ| && Carries(environ[i], name)
  }

  /** A name is set exactly when some entry with a '=' carries it. */
  lemma {:induction false} EnvironmentNames(environ: seq<String>, name: String)
    ensures name in FromEnvironment(environ) <==> SomeEntryCarries(environ, name)
    decreases |environ|
  {
    if |environ| > 0 {
      EnvironmentNames(environ[..|environ| - 1], name);
      CarriesSplit(environ, name);
    }
  }

  /** Some entry carries a name exactly when an earlier one or the last one does. */
  lemma CarriesSplit(environ: seq<String>, name: String)
    requires |environ| > 0
    ensures SomeEntryCarries(environ, name)
        <==> SomeEntryCarries(environ[..|environ| - 1], name) || Carries(environ[|environ| - 1], name)
  {
    var init := environ[..|environ| - 1];
    if SomeEntryCarries(init, name) {
      var i :| 0 <= i < |init| && Carries(init[i], name);
      assert environ[i] == init[i];
    }
    if SomeEntryCarries(environ, name) {
      var i :| 0 <= i < |environ| && Carries(environ[i], name);
      if i < |init| { assert init[i] == environ[i]; }
    }
  }

  /** A name takes the value of the last entry that carries it. */
  lemma {:induction false} EnvironmentLastWins(environ: seq<String>, i: nat)
    requires i < |environ| && EnvEntry(environ[i]).Some?
    requires forall j :: i < j < |environ| && EnvEntry(environ[j]).Some? ==> EnvEntry(environ[j]).value.0 != EnvEntry(environ[i]).value.0
    ensures var (name, value) := EnvEntry(environ[i]).value;
      name in FromEnvironment(environ) && FromEnvironment(environ)[name] == value
    decreases |environ|
  {
    if i < |environ| - 1 {
      var init := environ[..|environ| - 1];
      assert init[i] == environ[i];
      forall j | i < j < |init| && EnvEntry(init[j]).Some?
        ensures EnvEntry(init[j]).value.0 != EnvEntry(init[i]).value.0
      {
        assert init[j] == environ[j];
      }
      EnvironmentLastWins(init, i);
    }
  }

  // ---------------------------------------------------------------------
  // Reading values
  // ---------------------------------------------------------------------

  /** `Vars.String`: a present value, even an empty one, else the first default, else "". */
  function Get(vars: Vars, key: String, defaults: seq<String>): (r: String)
  {
    if key in vars then vars[key] else if |defaults| > 0 then defaults[0] else ""
  }

  /** A value set for a key is read back, even when empty, whatever the defaults. */
  lemma GetAfterSet(vars: Vars, key: String, value: String, other: String, defaults: seq<String>)
    ensures Get(vars[key := value], key, defaults) == value
    ensures other != key ==> Get(vars[key := value], other, defaults) == Get(vars, other, defaults)
  {
  }

  /** `Vars.Bool`: a present non-empty value is true when it is "true" or
      "yes" in any case, or "1"; otherwise the first default, else false. */
  function Bool(vars: Vars, key: String, defaults: seq<bool>): (r: bool)
  {
    if key in vars && |vars[key]| > 0 then
      CaseInsensitiveEquals(vars[key], "true") || CaseInsensitiveEquals(vars[key], "yes") || vars[key] == "1"
    else if |defaults| > 0 then defaults[0]
    else false
  }

  lemma TruthyUpper(t: String, y: String)
    requires t == "true" && y == "yes"
    ensures ToUpper(t) == "TRUE" && ToUpper(y) == "YES"
  {
  }

  /** A present non-empty value decides on its own: it is true exactly when
      its upper-cased form is "TRUE" or "YES" or it is "1", and the defaults
      are not consulted; an absent or empty value gives the first default,
      or false. */
  lemma BoolSpellings(vars: Vars, key: String, defaults: seq<bool>)
    ensures key in vars && |vars[key]| > 0 ==>
      (Bool(vars, key, defaults) <==> ToUpper(vars[key]) == "TRUE" || ToUpper(vars[key]) == "YES" || vars[key] == "1")
    ensures !(key in vars && |vars[key]| > 0) ==> Bool(vars, key, defaults) == (|defaults| > 0 && defaults[0])
  {
    TruthyUpper("true", "yes");
  }

  /** `Vars.Int`: a present value parsed (0 when it does not parse), else the first default, else 0. */
  function Int(vars: Vars, key: String, defaults: seq<int>): (r: int)
    ensures key in vars ==> r == GoUtil.ParseInt(vars[key])
  {
    if key in vars then GoUtil.ParseInt(vars[key]) else if |defaults| > 0 then defaults[0] else 0
  }

  /** `HasKeys`: every key is present; no keys are trivially present. */
  function HasKeys(vars: Vars, keys: seq<String>): (r: bool)
    ensures r <==> forall k :: 0 <= k < |keys| ==> keys[k] in vars
    decreases |keys|
  {
    if |keys| == 0 then true
    else if keys[0] !in vars then false
    else
      assert forall k :: 1 <= k < |keys| ==> keys[k] == keys[1..][k - 1];
      HasKeys(vars, keys[1..])
  }

  /** `Union`: the keys of both, the other's value winning a conflict.  Maps
      are values here, so neither input changes. */
  function Union(vars: Vars, other: Vars): (r: Vars)
    ensures forall k :: k in r <==> k in vars || k in other
    ensures forall k :: k in other ==> r[k] == other[k]
    ensures forall k :: k in vars && k !in other ==> r[k] == vars[k]
  {
    vars + other
  }

  /** Union with an empty set on either side, and with itself, changes nothing. */
  lemma UnionIdentities(vars: Vars)
    ensures Union(vars, map[]) == vars && Union(map[], vars) == vars && Union(vars, vars) == vars
  {
  }

  /** `Keys`: the names in Go's iteration order, one per key. */
  function Keys(vars: Vars, order: seq<String>): (r: seq<String>)
    requires StringSets.IterationOrder(order, vars.Keys)
    ensures |r| == |vars|
    ensures forall k :: k in r <==> k in vars
  {
    StringSets.ToArray(vars.Keys, order)
  }

  function ServiceEnv(vars: Vars): String {
    Get(vars, VarServiceEnv, [])
  }

  /** `IsProduction`: the service environment is "preprod" or "prod". */
  predicate IsProduction(vars: Vars) {
    ServiceEnv(vars) == ServiceEnvPreprod || ServiceEnv(vars) == ServiceEnvProd
  }

  /** `IsProdLike`: the production environments and "beta". */
  predicate IsProdLike(vars: Vars) {
    ServiceEnv(vars) == ServiceEnvPreprod || ServiceEnv(vars) == ServiceEnvBeta || ServiceEnv(vars) == ServiceEnvProd
  }

  /** Production needs SERVICE_ENV set to "preprod" or "prod"; production
      is prod-like, and the only other prod-like environment is "beta". */
  lemma ProductionIff(vars: Vars)
    ensures IsProduction(vars) <==> VarServiceEnv in vars && vars[VarServiceEnv] in {ServiceEnvPreprod, ServiceEnvProd}
    ensures IsProduction(vars) ==> IsProdLike(vars)
    ensures IsProdLike(vars) && !IsProduction(vars) <==> VarServiceEnv in vars && vars[VarServiceEnv] == ServiceEnvBeta
  {
  }
}
