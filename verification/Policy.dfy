/** The JSON policy engine (policy.py): hard budgets, then first-match rules. */
module Policy {
  import opened Types

  datatype Effect = Allow | Deny | RequireApproval

  datatype BudgetKey = MaxStepsPerSaga | MaxPlannedNodes | MaxRiskUnits | MaxParallel

  type Budgets = map<BudgetKey, nat>

  /** `effect` is what the rule says when its match holds; matching itself is an oracle. */
  datatype Rule = Rule(id: string, effect: Effect)

  datatype Tenant = Tenant(budgets: Budgets, threshold: Option<string>, rules: seq<Rule>, defaultEffect: Option<Effect>)

  function KeyName(key: BudgetKey): string {
    match key
    case MaxStepsPerSaga => "max_steps_per_saga"
    case MaxPlannedNodes => "max_planned_nodes"
    case MaxRiskUnits => "max_risk_units"
    case MaxParallel => "max_parallel"
  }

  /** Each budget goes by its own name. */
  lemma KeyNames(key: BudgetKey)
    ensures KeyName(key) == "max_parallel" <==> key == MaxParallel
    ensures KeyName(key) == "max_risk_units" <==> key == MaxRiskUnits
    ensures KeyName(key) == "max_planned_nodes" <==> key == MaxPlannedNodes
    ensures KeyName(key) == "max_steps_per_saga" <==> key == MaxStepsPerSaga
  {
    assert "max_parallel"[4] != "max_risk_units"[4];
    assert |"max_planned_nodes"| == 17 && |"max_steps_per_saga"| == 18;
  }

  /** Prospective quantities; a key that is missing is not checked. */
  datatype Request = Request(amounts: map<BudgetKey, int>, approvalGranted: bool)

  datatype Decision = Decision(effect: Effect, matched: seq<string>)

  const RISK_ORDER: map<string, int> := map["unknown" := 0, "low" := 1, "medium" := 2, "high" := 3, "critical" := 4]

  function LowerChar(c: char): char {
    if 'A' <= c <= 'Z' then (c as int + 32) as char else c
  }

  function Lower(s: string): string { seq(|s|, i requires 0 <= i < |s| => LowerChar(s[i])) }

  /** Letters are lowered one by one, and nothing else changes. */
  lemma LowerMeaning(s: string, i: nat)
    requires i < |s|
    ensures |Lower(s)| == |s|
    ensures 'A' <= s[i] <= 'Z' ==>
      'a' <= Lower(s)[i] <= 'z' && Lower(s)[i] as int - 'a' as int == s[i] as int - 'A' as int
    ensures !('A' <= s[i] <= 'Z') ==> Lower(s)[i] == s[i]
  {
  }

  /** `risk_name`; an action without a risk carries the empty text. */
  function RiskName(risk: string): string { if risk == "" then "unknown" else Lower(risk) }

  predicate Exceeds(budgets: Budgets, r: Request, key: BudgetKey) {
    key in budgets && key in r.amounts && r.amounts[key] > budgets[key]
  }

  predicate OverBudget(budgets: Budgets, r: Request) {
    || Exceeds(budgets, r, MaxStepsPerSaga) || Exceeds(budgets, r, MaxPlannedNodes)
    || Exceeds(budgets, r, MaxRiskUnits) || Exceeds(budgets, r, MaxParallel)
  }

  lemma OverBudgetMeaning(budgets: Budgets, r: Request)
    ensures OverBudget(budgets, r) <==>
            exists key :: key in budgets && key in r.amounts && r.amounts[key] > budgets[key]
  {
    if key :| key in budgets && key in r.amounts && r.amounts[key] > budgets[key] {
      match key
      case MaxStepsPerSaga => assert Exceeds(budgets, r, MaxStepsPerSaga);
      case MaxPlannedNodes => assert Exceeds(budgets, r, MaxPlannedNodes);
      case MaxRiskUnits => assert Exceeds(budgets, r, MaxRiskUnits);
      case MaxParallel => assert Exceeds(budgets, r, MaxParallel);
    }
  }

  function NoTenant(): Tenant { Tenant(map[], None, [], None) }

  /** `_effective`: a tenant's own budgets, threshold and default win over the wildcard's, and its
      rules come first. */
  function Effective(tenants: map<string, Tenant>, tenant: string, fallback: Effect): Tenant {
    var wildcard := if "*" in tenants then tenants["*"] else NoTenant();
    var own := if tenant in tenants then tenants[tenant] else NoTenant();
    Tenant(wildcard.budgets + own.budgets,
           if own.threshold.Some? then own.threshold else wildcard.threshold,
           own.rules + wildcard.rules,
           Some(if own.defaultEffect.Some? then own.defaultEffect.value
                else if wildcard.defaultEffect.Some? then wildcard.defaultEffect.value else fallback))
  }

  function Softened(effect: Effect, granted: bool): Effect {
    if effect.RequireApproval? && granted then Allow else effect
  }

  predicate AtThreshold(t: Tenant, risk: string) {
    && t.threshold.Some? && Lower(t.threshold.value) in RISK_ORDER
    && (if RiskName(risk) in RISK_ORDER then RISK_ORDER[RiskName(risk)] else 0) >= RISK_ORDER[Lower(t.threshold.value)]
  }

  predicate FirstMatch(rules: seq<Rule>, matches: Rule -> bool, i: nat) {
    i < |rules| && matches(rules[i]) && forall j :: 0 <= j < i ==> !matches(rules[j])
  }

  /** The five risks in rising order; a risk that is not among them counts as the first. */
  const RISKS: seq<string> := ["unknown", "low", "medium", "high", "critical"]

  ghost predicate Ranked(risk: string, i: nat) {
    i < |RISKS| && (RISKS[i] == risk || (i == 0 && forall j :: 0 <= j < |RISKS| ==> RISKS[j] != risk))
  }

  /** A threshold is reached by its own risk and by every one above it. */
  lemma ThresholdMeaning(t: Tenant, risk: string, i: nat, j: nat)
    requires t.threshold.Some? && i < |RISKS| && Lower(t.threshold.value) == RISKS[i] && Ranked(RiskName(risk), j)
    ensures AtThreshold(t, risk) <==> i <= j
  {
    RankIsPosition(i);
    if RISKS[j] == RiskName(risk) { RankIsPosition(j); } else { UnlistedRisk(RiskName(risk)); }
  }

  lemma RankIsPosition(i: nat)
    requires i < |RISKS|
    ensures RISKS[i] in RISK_ORDER && RISK_ORDER[RISKS[i]] == i
  {
    if i == 0 {} else if i == 1 {} else if i == 2 {} else if i == 3 {}
  }

  lemma UnlistedRisk(risk: string)
    requires forall j :: 0 <= j < |RISKS| ==> RISKS[j] != risk
    ensures risk !in RISK_ORDER
  {
    assert risk != RISKS[0] && risk != RISKS[1] && risk != RISKS[2] && risk != RISKS[3] && risk != RISKS[4];
  }

  /** What a tenant is governed by: key by key its own budget, else the wildcard's; its own threshold and
      default, else the wildcard's, else the fallback; its own rules, and then the wildcard's. */
  lemma EffectiveMeaning(tenants: map<string, Tenant>, tenant: string, fallback: Effect, key: BudgetKey)
    ensures var t := Effective(tenants, tenant, fallback);
      var own, wild := tenant in tenants, "*" in tenants;
      && (if own && key in tenants[tenant].budgets
          then key in t.budgets && t.budgets[key] == tenants[tenant].budgets[key]
          else if wild && key in tenants["*"].budgets
          then key in t.budgets && t.budgets[key] == tenants["*"].budgets[key] else key !in t.budgets)
      && t.threshold == (if own && tenants[tenant].threshold.Some? then tenants[tenant].threshold
                         else if wild then tenants["*"].threshold else None)
      && t.defaultEffect == (if own && tenants[tenant].defaultEffect.Some? then tenants[tenant].defaultEffect
                             else if wild && tenants["*"].defaultEffect.Some? then tenants["*"].defaultEffect
                             else Some(fallback))
  {
  }

  /** A matching rule of the tenant's own beats every rule of the wildcard's. */
  lemma OwnRulesFirst(tenants: map<string, Tenant>, tenant: string, fallback: Effect, matches: Rule -> bool, i: nat)
    requires var rules := Effective(tenants, tenant, fallback).rules; FirstMatch(rules, matches, i)
    ensures var rule := Effective(tenants, tenant, fallback).rules[i];
      if tenant in tenants && exists r :: r in tenants[tenant].rules && matches(r)
      then FirstMatch(tenants[tenant].rules, matches, i) && rule == tenants[tenant].rules[i]
      else "*" in tenants &&
           exists j: nat :: FirstMatch(tenants["*"].rules, matches, j) && rule == tenants["*"].rules[j]
  {
    var own := if tenant in tenants then tenants[tenant].rules else [];
    var wild := if "*" in tenants then tenants["*"].rules else [];
    assert Effective(tenants, tenant, fallback).rules == own + wild;
    forall j | 0 <= j < |own| ensures (own + wild)[j] == own[j] {}
    if i < |own| {
      assert own[i] in own;
    } else {
      forall r | r in own ensures !matches(r) {
        var j :| 0 <= j < |own| && own[j] == r;
        assert (own + wild)[j] == r;
      }
      forall j | 0 <= j < i - |own| ensures !matches(wild[j]) { assert (own + wild)[|own| + j] == wild[j]; }
      assert FirstMatch(wild, matches, i - |own|);
    }
  }

  class JsonPolicyEngine {
    const tenants: map<string, Tenant>
    const defaultEffect: Effect

    constructor (tenants: map<string, Tenant>, defaultEffect: Effect)
      ensures this.tenants == tenants && this.defaultEffect == defaultEffect
    {
      this.tenants, this.defaultEffect := tenants, defaultEffect;
    }

    /** The first exceeded budget, if any. */
    method BudgetDecision(budgets: Budgets, r: Request) returns (exceeded: Option<BudgetKey>)
      ensures exceeded.Some? <==> OverBudget(budgets, r)
      ensures exceeded.Some? ==> Exceeds(budgets, r, exceeded.value)
    {
      var checks := [MaxStepsPerSaga, MaxPlannedNodes, MaxRiskUnits, MaxParallel];
      for i := 0 to |checks|
        invariant forall j :: 0 <= j < i ==> !Exceeds(budgets, r, checks[j])
      {
        if Exceeds(budgets, r, checks[i]) { return Some(checks[i]); }
      }
      assert !Exceeds(budgets, r, checks[0]) && !Exceeds(budgets, r, checks[1]);
      assert !Exceeds(budgets, r, checks[2]) && !Exceeds(budgets, r, checks[3]);
      exceeded := None;
    }

    /** Budgets first: nothing a rule says lets an exceeding request through. Within budget the
        first matching rule decides, and an approval already granted satisfies one that asks for it. */
    method Decide(tenant: string, r: Request, risk: string, matches: Rule -> bool) returns (d: Decision)
      ensures var t := Effective(tenants, tenant, defaultEffect);
        && (OverBudget(t.budgets, r) <==>
              exists key :: key in t.budgets && key in r.amounts && r.amounts[key] > t.budgets[key])
        && (OverBudget(t.budgets, r) ==>
              d.effect.Deny? && exists key :: Exceeds(t.budgets, r, key) && d.matched == ["budget:" + KeyName(key)])
        && (forall i: nat :: !OverBudget(t.budgets, r) && FirstMatch(t.rules, matches, i) ==>
              && d.matched == [t.rules[i].id]
              && d.effect == (if r.approvalGranted && t.rules[i].effect == RequireApproval then Allow
                              else t.rules[i].effect))
        && (!OverBudget(t.budgets, r) && (forall i :: 0 <= i < |t.rules| ==> !matches(t.rules[i])) ==>
              if AtThreshold(t, risk) && !r.approvalGranted then d.effect == RequireApproval
              else Some(d.effect) == t.defaultEffect)
    {
      var t := Effective(tenants, tenant, defaultEffect);
      OverBudgetMeaning(t.budgets, r);
      var exceeded := BudgetDecision(t.budgets, r);
      if exceeded.Some? { return Decision(Deny, ["budget:" + KeyName(exceeded.value)]); }
      for i := 0 to |t.rules|
        invariant forall j :: 0 <= j < i ==> !matches(t.rules[j])
      {
        if matches(t.rules[i]) {
          return Decision(Softened(t.rules[i].effect, r.approvalGranted), [t.rules[i].id]);
        }
      }
      if AtThreshold(t, risk) && !r.approvalGranted { return Decision(RequireApproval, ["approval-threshold"]); }
      d := Decision(t.defaultEffect.value, []);
    }
  }
}
