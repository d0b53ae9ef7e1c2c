/**
 Idle-session limits: how the per-operator overrides are read from the
 environment, validated at start-up, and looked up.
 */
module ExpiryConfig {
  import opened Options
  import opened Text

  datatype Config = Config(idle: int, maxAge: int, batch: int, byOperator: map<string, int>) {

    /** The limit the gateway reports for an operator. */
    function IdleSecsFor(name: string): int { GetOr(byOperator, Lower(name), idle) }

    /** The limit the claiming SQL applies: the same lookup without lower-casing. */
    function SqlLimit(name: string): int { GetOr(byOperator, name, idle) }

    predicate InWindow(secs: int) { 0 < secs < maxAge }
  }

  function GetOr(m: map<string, int>, k: string, d: int): int { if k in m then m[k] else d }

  // ---- reading the environment -------------------------------------------------

  const PREFIX := "USSD_SESSION_IDLE_EXPIRY_SECS_"

  /** The operator an environment entry sets a limit for, if it is one of ours. */
  function OperatorOf(name: string, value: string): Option<string> {
    if |PREFIX| < |name| && PREFIX <= name && !Blank(value) then Some(Lower(name[|PREFIX|..])) else None
  }

  /** Exactly the entries with the prefix, something behind it and a value that is
      not blank set a limit, for the operator named behind it in lower case. */
  lemma SetsALimitExactly(name: string, value: string, op: string)
    ensures OperatorOf(name, value) == Some(op)
        <==> exists rest :: rest != "" && name == "USSD_SESSION_IDLE_EXPIRY_SECS_" + rest && op == Lower(rest)
                            && Strip(value) != ""
  {
    StripOfBlank(value);
    if OperatorOf(name, value) == Some(op) { assert name == PREFIX + name[|PREFIX|..]; }
    if rest :| rest != "" && name == PREFIX + rest && op == Lower(rest) && Strip(value) != "" {
      assert name[|PREFIX|..] == rest;
    }
  }

  lemma StripOfBlank(value: string)
    ensures Strip(value) == "" <==> Blank(value)
  {
    var l := DropLeft(value, IsSpace);
    DropLeftFacts(value, IsSpace);
    DropRightFacts(l, IsSpace);
    assert l != "" ==> l[0] == value[|value| - |l|];
  }

  /** The last entry among the first `n` that sets `op`, or -1. */
  function LastSetting(env: seq<(string, string)>, n: nat, op: string): int
    requires n <= |env|
  {
    if n == 0 then -1
    else if OperatorOf(env[n - 1].0, env[n - 1].1) == Some(op) then n - 1
    else LastSetting(env, n - 1, op)
  }

  lemma {:induction false} LastSettingIsLast(env: seq<(string, string)>, n: nat, op: string)
    requires n <= |env|
    ensures var k := LastSetting(env, n, op);
            && -1 <= k < n
            && (k >= 0 ==> OperatorOf(env[k].0, env[k].1) == Some(op))
            && forall j :: k < j < n ==> OperatorOf(env[j].0, env[j].1) != Some(op)
  {
    if n > 0 && OperatorOf(env[n - 1].0, env[n - 1].1) != Some(op) { LastSettingIsLast(env, n - 1, op); }
  }

  /** Every entry with the prefix and a non-blank value is read; the last one for an operator
      wins, whatever its case; one that is not an integer refuses to start.
      `parse` stands for int() on the stripped value. */
  method IdleSecsByOperator(env: seq<(string, string)>, parse: string -> Option<int>)
      returns (out: Option<map<string, int>>)
    ensures out.None? <==> exists i :: 0 <= i < |env| && OperatorOf(env[i].0, env[i].1).Some? && parse(env[i].1).None?
    ensures out.Some? ==> forall op :: op in out.value <==> LastSetting(env, |env|, op) >= 0
    ensures out.Some? ==> forall op :: op in out.value ==>
              (LastSetting(env, |env|, op) < |env| && Some(out.value[op]) == parse(env[LastSetting(env, |env|, op)].1))
  {
    var m: map<string, int> := map[];
    for i := 0 to |env|
      invariant forall j :: 0 <= j < i ==> (OperatorOf(env[j].0, env[j].1).Some? ==> parse(env[j].1).Some?)
      invariant forall op :: op in m <==> LastSetting(env, i, op) >= 0
      invariant forall op :: op in m ==>
          LastSetting(env, i, op) < i && Some(m[op]) == parse(env[LastSetting(env, i, op)].1)
    {
      var op := OperatorOf(env[i].0, env[i].1);
      if op.Some? {
        var v := parse(env[i].1);
        if v.None? { return None; }
        m := m[op.value := v.value];
      }
    }
    out := Some(m);
  }

  // ---- validation -----------------------------------------------------------------

  /** What __post_init__ checks: the limits {"default": idle, **byOperator}. */
  function Limits(c: Config): map<string, int> { map["default" := c.idle] + c.byOperator }

  /** The operator a refusal names, or None when the configuration is accepted. */
  method Validate(c: Config) returns (bad: Option<string>)
    ensures bad.None? <==> forall op :: op in Limits(c) ==> c.InWindow(Limits(c)[op])
    ensures bad.Some? ==> bad.value in Limits(c) && !c.InWindow(Limits(c)[bad.value])
  {
    var limits := Limits(c);
    var todo := limits.Keys;
    while todo != {}
      invariant todo <= limits.Keys
      invariant forall op :: op in limits && op !in todo ==> c.InWindow(limits[op])
      decreases todo
    {
      var op :| op in todo;
      if limits[op] <= 0 { return Some(op); }
      if limits[op] >= c.maxAge { return Some(op); }
      todo := todo - {op};
    }
    bad := None;
  }

  predicate Accepted(c: Config) { forall op :: op in Limits(c) ==> c.InWindow(Limits(c)[op]) }

  /** An accepted configuration gives every operator a non-empty claim window,
      unless an override is itself called "default": that entry replaces the
      default in the list of limits, and the default goes unchecked. */
  lemma WindowsNonEmptyExactly(c: Config)
    requires Accepted(c)
    ensures (forall name: string :: c.InWindow(c.SqlLimit(name)) && c.InWindow(c.IdleSecsFor(name)))
        <==> ("default" in c.byOperator ==> c.InWindow(c.idle))
  {
    var l := Limits(c);
    assert forall op :: op in c.byOperator ==> op in l && l[op] == c.byOperator[op];
    if "default" !in c.byOperator { assert "default" in l && l["default"] == c.idle; }
    if !c.InWindow(c.idle) && "default" in c.byOperator {
      var name := FreshName(c.byOperator.Keys);
      assert c.SqlLimit(name) == c.idle;
    }
  }

  /** Some name has no override. */
  lemma FreshName(names: set<string>) returns (name: string)
    ensures name !in names
  {
    var rest := names;
    name := "";
    while exists n :: n in rest && |n| >= |name|
      invariant rest <= names
      invariant forall n :: n in names && n !in rest ==> |n| < |name|
      decreases rest
    {
      var n :| n in rest && |n| >= |name|;
      name := n + "x";
      rest := rest - {n};
    }
  }

  lemma DefaultCanGoUnchecked()
    ensures var c := Config(0, 3600, 200, map["default" := 100]);
            Accepted(c) && !c.InWindow(c.SqlLimit("airtel"))
  {
    var c := Config(0, 3600, 200, map["default" := 100]);
    assert Limits(c) == map["default" := 100];
  }

  /** The limit reported and the limit applied by the SQL agree exactly when
      lower-casing the operator's name does not change what it finds. */
  lemma ReportedIsApplied(c: Config, name: string)
    requires forall op :: op in c.byOperator ==> Lower(op) == op
    ensures c.IdleSecsFor(name) == c.SqlLimit(name)
        <==> name == Lower(name) || Lower(name) !in c.byOperator || c.byOperator[Lower(name)] == c.idle
  {
    if name in c.byOperator { assert Lower(name) == name; }
  }

  lemma LowerAirtel()
    ensures Lower("AIRTEL") == "airtel"
  {
  }

  /** An operator registered in upper case is reported its own limit and swept at
      the default one. */
  lemma UpperCaseNameDiffers(idle: int, own: int, maxAge: int, batch: int)
    requires idle != own
    ensures var c := Config(idle, maxAge, batch, map["airtel" := own]);
            c.IdleSecsFor("AIRTEL") == own && c.SqlLimit("AIRTEL") == idle
  {
    LowerAirtel();
  }

  /** The smallest limit: what the index range scan uses. */
  method MinIdle(c: Config) returns (m: int)
    ensures m <= c.idle && forall op :: op in c.byOperator ==> m <= c.byOperator[op]
    ensures m == c.idle || exists op :: op in c.byOperator && m == c.byOperator[op]
  {
    m := c.idle;
    var todo := c.byOperator.Keys;
    while todo != {}
      invariant todo <= c.byOperator.Keys && m <= c.idle
      invariant forall op :: op in c.byOperator && op !in todo ==> m <= c.byOperator[op]
      invariant m == c.idle || exists op :: op in c.byOperator && m == c.byOperator[op]
      decreases todo
    {
      var op :| op in todo;
      if c.byOperator[op] < m { m := c.byOperator[op]; }
      todo := todo - {op};
    }
  }
}
