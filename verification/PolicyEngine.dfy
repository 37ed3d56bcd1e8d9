/** The policy engine's firing decisions and cooldown map (internal/policy/engine.go). */
module PolicyEngine {
  import opened Wrappers
  import opened Conditions

  type RuleId = string

  datatype Push = Push(service: string, ruleIds: seq<string>)

  datatype PolicyRule = PolicyRule(
    id: RuleId,
    metric: string,
    operator: string,
    threshold: real,
    cooldown: int,
    actionType: string,
    push: Option<Push>)

  /** An effect the caller is asked to apply; clear_rules carries no rule ids. */
  datatype Effect = Effect(actionType: string, service: string, ruleIds: Option<seq<string>>)

  /**
   One evaluation of one rule: the metric value (None when the query failed or the snapshot lacks
   the metric) and the two clock reads of the critical section, the cooldown test and the stamp.
  */
  datatype Evaluation = Evaluation(rule: PolicyRule, value: Option<Value>, checkAt: int, stampAt: int)

  type Fired = map<RuleId, int>

  predicate IsMet(e: Evaluation) {
    e.value.Some? && Met(e.value.value, e.rule.operator, e.rule.threshold)
  }

  /** A rule that has never fired is never in cooldown: its last firing is the zero time. */
  predicate Fires(last: Fired, e: Evaluation) {
    IsMet(e) && (e.rule.id in last ==> e.checkAt - last[e.rule.id] >= e.rule.cooldown)
  }

  function Stamp(last: Fired, e: Evaluation): Fired {
    if Fires(last, e) then last[e.rule.id := e.stampAt] else last
  }

  /** Firing is stamped at once; a rule without a value, unmet or in its cooldown leaves every stamp as it was. */
  lemma FiringIsStamped(last: Fired, e: Evaluation)
    ensures var fires := && e.value.Some? && Met(e.value.value, e.rule.operator, e.rule.threshold)
                         && (e.rule.id in last ==> e.checkAt - last[e.rule.id] >= e.rule.cooldown);
            && (fires <==> Fires(last, e))
            && (fires ==> e.rule.id in Stamp(last, e) && Stamp(last, e)[e.rule.id] == e.stampAt
                          && OthersKept(last, Stamp(last, e), e.rule.id))
            && (!fires ==> Stamp(last, e) == last)
  {
  }

  function Fold(last: Fired, es: seq<Evaluation>): Fired {
    if es == [] then last else Stamp(Fold(last, es[..|es| - 1]), es[|es| - 1])
  }

  /** Evaluation k of a sequence that starts with nothing fired fires. */
  predicate FiresAt(es: seq<Evaluation>, k: nat)
    requires k < |es|
  {
    Fires(Fold(map[], es[..k]), es[k])
  }

  ghost predicate ClockForward(es: seq<Evaluation>) {
    && (forall i :: 0 <= i < |es| ==> es[i].checkAt <= es[i].stampAt)
    && forall i, j :: 0 <= i < j < |es| ==> es[i].stampAt <= es[j].checkAt
  }

  /** The map holds, for each rule, the stamp of its latest firing. */
  lemma {:induction false} FoldHoldsLatest(es: seq<Evaluation>, n: nat, id: RuleId)
    requires ClockForward(es) && n <= |es|
    ensures id in Fold(map[], es[..n]) ==>
              exists i :: 0 <= i < n && es[i].rule.id == id && FiresAt(es, i)
                  && Fold(map[], es[..n])[id] == es[i].stampAt
    ensures forall i :: 0 <= i < n && es[i].rule.id == id && FiresAt(es, i) ==>
              id in Fold(map[], es[..n]) && Fold(map[], es[..n])[id] >= es[i].stampAt
    decreases n
  {
    if n > 0 {
      FoldHoldsLatest(es, n - 1, id);
      assert es[..n][..n - 1] == es[..n - 1];
      var last := Fold(map[], es[..n - 1]);
      assert Fold(map[], es[..n]) == Stamp(last, es[n - 1]);
      assert FiresAt(es, n - 1) <==> Fires(last, es[n - 1]);
    }
  }

  /**
   Over a whole run with a clock that never goes back, an evaluation fires exactly when its condition
   is met and every earlier firing of the same rule is at least the rule's cooldown ago. So two firings
   are never closer than the cooldown, and a met condition outside the cooldown is never missed.
  */
  lemma FiresExactlyOutsideCooldown(es: seq<Evaluation>, k: nat)
    requires ClockForward(es) && k < |es|
    ensures FiresAt(es, k) <==>
              && es[k].value.Some? && Met(es[k].value.value, es[k].rule.operator, es[k].rule.threshold)
              && forall i :: 0 <= i < k && es[i].rule.id == es[k].rule.id && FiresAt(es, i) ==>
                   es[k].checkAt - es[i].stampAt >= es[k].rule.cooldown
  {
    FoldHoldsLatest(es, k, es[k].rule.id);
  }

  function EffectOf(r: PolicyRule): seq<Effect> {
    if r.push.None? then []
    else [Effect(r.actionType, r.push.value.service,
                 if r.actionType == "push_rules" then Some(r.push.value.ruleIds) else None)]
  }

  function Effects(last: Fired, es: seq<Evaluation>): seq<Effect> {
    if es == [] then []
    else
      var n := |es| - 1;
      Effects(last, es[..n]) + if Fires(Fold(last, es[..n]), es[n]) then EffectOf(es[n].rule) else []
  }

  /** The positions at which a rule with a push configuration fires, in order. */
  function Pushes(last: Fired, es: seq<Evaluation>): (ks: seq<nat>)
    ensures forall i :: 0 <= i < |ks| ==> ks[i] < |es|
  {
    if es == [] then []
    else
      var n := |es| - 1;
      Pushes(last, es[..n]) + if Fires(Fold(last, es[..n]), es[n]) && es[n].rule.push.Some? then [n] else []
  }

  /** The effect asks for the action of the rule on its service; only push_rules carries the rule ids. */
  predicate AsksFor(e: Effect, r: PolicyRule) {
    && r.push.Some? && e.actionType == r.actionType && e.service == r.push.value.service
    && (r.actionType == "push_rules" ==> e.ruleIds == Some(r.push.value.ruleIds))
    && (r.actionType != "push_rules" ==> e.ruleIds.None?)
  }

  /** There is one effect for each firing of a rule with a push configuration, in the order of the firings. */
  lemma {:induction false} EffectsAreThePushes(last: Fired, es: seq<Evaluation>)
    ensures var effects, ks := Effects(last, es), Pushes(last, es);
            |effects| == |ks| && forall i :: 0 <= i < |ks| ==> AsksFor(effects[i], es[ks[i]].rule)
    decreases |es|
  {
    if es != [] {
      var n := |es| - 1;
      EffectsAreThePushes(last, es[..n]);
      var before := Pushes(last, es[..n]);
      assert forall i :: 0 <= i < |before| ==> es[..n][before[i]] == es[before[i]];
    }
  }

  /** A position is among the pushes exactly when its rule fires there and has a push configuration. */
  lemma {:induction false} PushesAreTheFirings(last: Fired, es: seq<Evaluation>, k: nat)
    requires k < |es|
    ensures k in Pushes(last, es) <==> Fires(Fold(last, es[..k]), es[k]) && es[k].rule.push.Some?
    decreases |es|
  {
    var n := |es| - 1;
    assert forall i :: i in Pushes(last, es[..n]) ==> i < n;
    if k < n {
      PushesAreTheFirings(last, es[..n], k);
      assert es[..n][..k] == es[..k] && es[..n][k] == es[k];
    }
  }

  /** The evaluations a snapshot decision performs: one per rule, with the snapshot's value for its metric. */
  function SnapshotEvaluations(rules: seq<PolicyRule>, metrics: map<string, Value>, clock: seq<(int, int)>)
    : (es: seq<Evaluation>)
    requires |clock| == |rules|
    ensures |es| == |rules|
    ensures forall i :: 0 <= i < |rules| ==>
              && es[i].rule == rules[i] && es[i].checkAt == clock[i].0 && es[i].stampAt == clock[i].1
              && (es[i].value.Some? <==> rules[i].metric in metrics)
              && (rules[i].metric in metrics ==> es[i].value == Some(metrics[rules[i].metric]))
  {
    seq(|rules|, i requires 0 <= i < |rules| =>
      Evaluation(rules[i], if rules[i].metric in metrics then Some(metrics[rules[i].metric]) else None,
                 clock[i].0, clock[i].1))
  }

  class Engine {
    var lastFiredAt: Fired

    constructor ()
      ensures lastFiredAt == map[]
    {
      lastFiredAt := map[];
    }

    /** The decision part of evaluate: query, test, critical section. */
    method Evaluate(e: Evaluation) returns (fired: bool)
      modifies this
      ensures fired == Fires(old(lastFiredAt), e) && lastFiredAt == Stamp(old(lastFiredAt), e)
    {
      if e.value.None? {
        return false;
      }
      if !Met(e.value.value, e.rule.operator, e.rule.threshold) {
        return false;
      }
      if e.rule.id in lastFiredAt && e.checkAt - lastFiredAt[e.rule.id] < e.rule.cooldown {
        return false;
      }
      lastFiredAt := lastFiredAt[e.rule.id := e.stampAt];
      return true;
    }

    /** One tick: every enabled rule in turn. */
    method Tick(es: seq<Evaluation>) returns (fired: seq<bool>)
      modifies this
      ensures lastFiredAt == Fold(old(lastFiredAt), es)
      ensures |fired| == |es|
      ensures forall k :: 0 <= k < |es| ==> fired[k] == Fires(Fold(old(lastFiredAt), es[..k]), es[k])
    {
      fired := [];
      for k := 0 to |es|
        invariant lastFiredAt == Fold(old(lastFiredAt), es[..k])
        invariant |fired| == k
        invariant forall j :: 0 <= j < k ==> fired[j] == Fires(Fold(old(lastFiredAt), es[..j]), es[j])
      {
        var f := Evaluate(es[k]);
        assert es[..k + 1][..k] == es[..k];
        fired := fired + [f];
      }
      assert es[..|es|] == es;
    }

    /**
     The snapshot form leaves the same cooldown map as evaluating the same rules one by one, and
     returns exactly the effects of the rules that fire and have a push configuration.
    */
    method Decide(rules: seq<PolicyRule>, metrics: map<string, Value>, clock: seq<(int, int)>)
      returns (effects: seq<Effect>)
      requires |clock| == |rules|
      modifies this
      ensures lastFiredAt == Fold(old(lastFiredAt), SnapshotEvaluations(rules, metrics, clock))
      ensures effects == Effects(old(lastFiredAt), SnapshotEvaluations(rules, metrics, clock))
      ensures var ks := Pushes(old(lastFiredAt), SnapshotEvaluations(rules, metrics, clock));
              |effects| == |ks| && forall i :: 0 <= i < |ks| ==> AsksFor(effects[i], rules[ks[i]])
    {
      ghost var es := SnapshotEvaluations(rules, metrics, clock);
      effects := [];
      for k := 0 to |rules|
        invariant lastFiredAt == Fold(old(lastFiredAt), es[..k])
        invariant effects == Effects(old(lastFiredAt), es[..k])
      {
        assert es[..k + 1][..k] == es[..k];
        var rule := rules[k];
        if rule.metric !in metrics {
          continue;
        }
        var value := metrics[rule.metric];
        if !Met(value, rule.operator, rule.threshold) {
          continue;
        }
        if rule.id in lastFiredAt && clock[k].0 - lastFiredAt[rule.id] < rule.cooldown {
          continue;
        }
        lastFiredAt := lastFiredAt[rule.id := clock[k].1];
        if rule.push.None? {
          continue;
        }
        var eff := Effect(rule.actionType, rule.push.value.service, None);
        if rule.actionType == "push_rules" {
          eff := eff.(ruleIds := Some(rule.push.value.ruleIds));
        }
        effects := effects + [eff];
      }
      assert es[..|rules|] == es;
      EffectsAreThePushes(old(lastFiredAt), es);
    }
  }
}
