/** From two revisions to the plan between them, with its refusals. */
module DeltaPlans {
  import opened Options
  import opened Jsons
  import opened Texts
  import opened DeploymentPlanner

  lemma EveryRuleDeployable(next: Revision, targets: seq<Target>, r: Renderer)
    requires UpsertsReady(next, targets, r)
    ensures forall rule, t :: rule in next.rules && t in targets && rule.context in t.contexts ==> Deployable(t, rule, r)
  {
    hide Deployable;
    ContextsOfFacts(next.rules);
    forall rule, t | rule in next.rules && t in targets && rule.context in t.contexts ensures Deployable(t, rule, r) {
      assert ContextReady(targets, next.rules, next.contexts, rule.context, r);
      assert AllDeployable(t, next.rules, rule.context, r);
    }
  }

  /** Every dropped rule of the base can be removed. */
  ghost predicate RemovalsReady(base: seq<PolicyRule>, next: seq<PolicyRule>, targets: seq<Target>, r: Renderer) {
    && (forall rule :: rule in base && rule.name != "" ==> r.oldFamily(rule))
    && forall rule :: rule in base && rule.name != "" && KeyOf(rule) !in NextKeys(next, r) ==> Removable(targets, rule, r)
  }

  // ---------------------------------------------------------------- DENYs that change in place

  /** The plan of a revision as it was made on its own. */
  function OwnRenderer(r: Renderer): Renderer {
    r.(family := r.oldFamily, desired := r.approved)
  }

  function MatchOf(p: Payload, matching: map<string, Json>): Json {
    Obj(map k | k in matching :: if k in p.fields then p.fields[k] else matching[k])
  }

  /** A DENY that stays a DENY but matches something else. */
  predicate UnsafeDeny(before: Payload, after: Payload, matching: map<string, Json>) {
    before.deny && after.deny && !Same(MatchOf(before, matching), MatchOf(after, matching))
  }

  /** The two payloads do not both deny, or they agree on every field that decides what
      is matched, a default standing in for an omitted one. */
  ghost predicate MatchKept(before: Payload, after: Payload, matching: map<string, Json>) {
    before.deny && after.deny ==> forall k :: k in matching ==>
      FieldSame(if k in before.fields then before.fields[k] else matching[k], if k in after.fields then after.fields[k] else matching[k])
  }

  lemma UnsafeDenyIs(before: Payload, after: Payload, matching: map<string, Json>)
    ensures UnsafeDeny(before, after, matching) <==> !MatchKept(before, after, matching)
  {
    hide FieldSame;
    var b, a := MatchOf(before, matching).fields, MatchOf(after, matching).fields;
    assert Same(Obj(b), Obj(a)) <==> forall k :: k in matching ==> FieldSame(b[k], a[k]);
    forall k | k in matching ensures FieldSame(b[k], a[k])
      <==> FieldSame(if k in before.fields then before.fields[k] else matching[k], if k in after.fields then after.fields[k] else matching[k]) { }
  }

  /** The plan of the revision alone has this payload for the rule. */
  ghost predicate ApprovedAs(previous: Revision, targets: seq<Target>, r: Renderer, t: Target, rule: PolicyRule, p: Payload) {
    && t in targets && rule in previous.rules && rule.context in previous.contexts && rule.context in t.contexts
    && Deployable(t, rule, OwnRenderer(r)) && r.approved(t, rule) == Some(p)
  }

  /** No DENY of the revision matches something else in the next one. */
  ghost predicate DeniesKept(previous: Revision, next: Revision, targets: seq<Target>, r: Renderer) {
    forall t, was, now, p :: ApprovedAs(previous, targets, r, t, was, p) && KeepsDeny(next, r, t, was, now) ==> DenyKept(r, t, now, p)
  }

  ghost predicate KeepsDeny(next: Revision, r: Renderer, t: Target, was: PolicyRule, now: PolicyRule) {
    && now in next.rules && now.context in next.contexts && now.context in t.contexts && KeyOf(now) == KeyOf(was) && Deployable(t, now, r)
  }

  ghost predicate DenyKept(r: Renderer, t: Target, now: PolicyRule, p: Payload) {
    r.desired(t, now).Some? ==> MatchKept(p, r.desired(t, now).value, r.matching)
  }

  ghost predicate KeysOnce(rules: seq<PolicyRule>) {
    forall a, b :: a in rules && b in rules && KeyOf(a) == KeyOf(b) ==> a == b
  }

  type PolicyKey = (string, string, string)

  function PolicyKeyOf(c: PlanCommand): PolicyKey {
    (c.target, c.context, c.name)
  }

  ghost predicate ShowsApproved(approved: map<PolicyKey, Payload>, commands: seq<PlanCommand>) {
    && (forall c :: c in commands ==> PolicyKeyOf(c) in approved)
    && (forall k :: k in approved ==> exists c :: c in commands && PolicyKeyOf(c) == k && c.payload == approved[k])
  }

  /** What the plan of the previous revision has approved; later commands win. */
  method ApprovedPayloads(previous: Revision, targets: seq<Target>, r: Renderer) returns (approved: map<PolicyKey, Payload>, ghost commands: seq<PlanCommand>)
    requires TargetsApart(targets)
    ensures ShowsApproved(approved, commands) && ShowsOwnPlan(commands, previous, targets, r)
  {
    hide Emitted;
    var upserts, failed := PlanUpserts(previous, targets, OwnRenderer(r));
    var plan := FinaliseOrder(upserts, [], targets);
    commands := plan;
    approved := map[];
    for i := 0 to |plan|
      invariant ShowsApproved(approved, plan[..i])
    {
      ApprovedMore(approved, plan, i);
      approved := approved[PolicyKeyOf(plan[i]) := plan[i].payload];
    }
    assert plan[..|plan|] == plan;
    OwnPlan(previous, targets, r, upserts);
  }

  lemma ApprovedMore(approved: map<PolicyKey, Payload>, plan: seq<PlanCommand>, i: nat)
    requires i < |plan| && ShowsApproved(approved, plan[..i])
    ensures ShowsApproved(approved[PolicyKeyOf(plan[i]) := plan[i].payload], plan[..i + 1])
  {
    hide PolicyKeyOf;
    var next := plan[..i + 1];
    assert next == plan[..i] + [plan[i]];
    var more := approved[PolicyKeyOf(plan[i]) := plan[i].payload];
    forall k | k in more ensures exists c :: c in next && PolicyKeyOf(c) == k && c.payload == more[k] {
      if k == PolicyKeyOf(plan[i]) {
        assert plan[i] in next;
      } else {
        var c :| c in plan[..i] && PolicyKeyOf(c) == k && c.payload == approved[k];
        assert c in next;
      }
    }
  }

  predicate IsFor(c: PlanCommand, t: Target, rule: PolicyRule, p: Payload) {
    c.verb == Upsert && c.target == t.name && c.context == rule.context && c.name == rule.name && c.payload == p
  }

  lemma OwnPlan(previous: Revision, targets: seq<Target>, r: Renderer, upserts: seq<PlanCommand>)
    requires forall c :: c in upserts <==> Emitted(c, previous, targets, OwnRenderer(r))
    ensures ShowsOwnPlan(Ordered(upserts, [], targets), previous, targets, r)
  {
    hide Ordered, Deployable;
    var plan, own := Ordered(upserts, [], targets), OwnRenderer(r);
    forall c | c in upserts ensures c.verb == Upsert { var t, rule := EmittedIsFor(c, previous, targets, own); }
    OrderedFacts(upserts, [], targets);
    forall c | c in plan ensures IsApproved(c, previous, targets, r) {
      var d :| d in (if c.verb == Upsert then upserts else []) && Core(d) == Core(c);
      var t, rule := EmittedIsFor(d, previous, targets, own);
      assert ApprovedAs(previous, targets, r, t, rule, d.payload) && IsFor(c, t, rule, d.payload);
    }
    forall t, rule, p | ApprovedAs(previous, targets, r, t, rule, p) ensures HasCommand(plan, t, rule, p) {
      var d := UpsertFor(t, rule, own);
      assert Emits(d, t, rule, own);
      assert d in upserts;
      var c :| c in plan && Core(c) == Core(d);
      assert IsFor(c, t, rule, p);
    }
  }

  lemma EmittedIsFor(c: PlanCommand, revision: Revision, targets: seq<Target>, r: Renderer) returns (t: Target, rule: PolicyRule)
    requires Emitted(c, revision, targets, r)
    ensures t in targets && rule in revision.rules && rule.context in revision.contexts && rule.context in t.contexts
    ensures Deployable(t, rule, r) && r.desired(t, rule) == Some(c.payload) && IsFor(c, t, rule, c.payload)
  {
    t, rule :| t in targets && rule in revision.rules && rule.context in revision.contexts && rule.context in t.contexts && Emits(c, t, rule, r);
  }

  predicate Refused(c: PlanCommand, approved: map<PolicyKey, Payload>, matching: map<string, Json>) {
    c.verb == Upsert && PolicyKeyOf(c) in approved && UnsafeDeny(approved[PolicyKeyOf(c)], c.payload, matching)
  }

  /** An UPSERT of an approved policy that denies before and after keeps its match. */
  ghost predicate Agrees(c: PlanCommand, approved: map<PolicyKey, Payload>, matching: map<string, Json>) {
    c.verb == Upsert && PolicyKeyOf(c) in approved ==> MatchKept(approved[PolicyKeyOf(c)], c.payload, matching)
  }

  lemma RefusedIs(c: PlanCommand, approved: map<PolicyKey, Payload>, matching: map<string, Json>)
    ensures Agrees(c, approved, matching) <==> !Refused(c, approved, matching)
  {
    hide UnsafeDeny, MatchKept, PolicyKeyOf;
    if PolicyKeyOf(c) in approved { UnsafeDenyIs(approved[PolicyKeyOf(c)], c.payload, matching); }
  }

  method CountUnsafeDenies(commands: seq<PlanCommand>, approved: map<PolicyKey, Payload>, matching: map<string, Json>) returns (errors: nat)
    ensures errors == 0 <==> forall c :: c in commands ==> Agrees(c, approved, matching)
  {
    hide Refused, Agrees;
    errors := 0;
    for i := 0 to |commands|
      invariant errors == 0 <==> forall c :: c in commands[..i] ==> Agrees(c, approved, matching)
    {
      RefusedIs(commands[i], approved, matching);
      assert commands[..i + 1] == commands[..i] + [commands[i]];
      if Refused(commands[i], approved, matching) { errors := errors + 1; }
    }
    assert commands[..|commands|] == commands;
  }

  /** The approved plan, seen through its commands. */
  ghost predicate ShowsOwnPlan(old_: seq<PlanCommand>, previous: Revision, targets: seq<Target>, r: Renderer) {
    && (forall c :: c in old_ ==> IsApproved(c, previous, targets, r))
    && (forall t, rule, p :: ApprovedAs(previous, targets, r, t, rule, p) ==> HasCommand(old_, t, rule, p))
  }

  ghost predicate IsApproved(c: PlanCommand, previous: Revision, targets: seq<Target>, r: Renderer) {
    exists t, rule, p :: ApprovedAs(previous, targets, r, t, rule, p) && IsFor(c, t, rule, p)
  }

  ghost predicate HasCommand(commands: seq<PlanCommand>, t: Target, rule: PolicyRule, p: Payload) {
    exists c :: c in commands && IsFor(c, t, rule, p)
  }

  lemma RefusedIsUnsafe(c: PlanCommand, approved: map<PolicyKey, Payload>, old_: seq<PlanCommand>, previous: Revision, next: Revision,
                        targets: seq<Target>, r: Renderer, upserts: seq<PlanCommand>)
    requires TargetsApart(targets) && ShowsApproved(approved, old_) && ShowsOwnPlan(old_, previous, targets, r)
    requires (forall d :: d in upserts <==> Emitted(d, next, targets, r)) && HasCore(upserts, c)
    requires DeniesKept(previous, next, targets, r)
    ensures Agrees(c, approved, r.matching)
  {
    hide Deployable, Emitted, ApprovedAs, ShowsOwnPlan, DeniesKept;
    if !Agrees(c, approved, r.matching) {
      var d :| d in upserts && Core(d) == Core(c);
      var t, now := EmittedIsFor(d, next, targets, r);
      var e :| e in old_ && PolicyKeyOf(e) == PolicyKeyOf(c) && e.payload == approved[PolicyKeyOf(c)];
      var s, was, p := OwnCommand(e, old_, previous, targets, r);
      SameTarget(targets, s, t);
      KeptIsKept(previous, next, targets, r, t, was, now, p);
    }
  }

  lemma KeptIsKept(previous: Revision, next: Revision, targets: seq<Target>, r: Renderer, t: Target, was: PolicyRule, now: PolicyRule, p: Payload)
    requires DeniesKept(previous, next, targets, r) && ApprovedAs(previous, targets, r, t, was, p) && KeepsDeny(next, r, t, was, now)
    ensures DenyKept(r, t, now, p)
  {
  }

  lemma OwnCommand(c: PlanCommand, old_: seq<PlanCommand>, previous: Revision, targets: seq<Target>, r: Renderer) returns (t: Target, rule: PolicyRule, p: Payload)
    requires c in old_ && ShowsOwnPlan(old_, previous, targets, r)
    ensures ApprovedAs(previous, targets, r, t, rule, p) && IsFor(c, t, rule, p)
    ensures t in targets && rule in previous.rules && r.approved(t, rule) == Some(p)
  {
    hide Deployable, HasCommand;
    assert IsApproved(c, previous, targets, r);
    t, rule, p :| ApprovedAs(previous, targets, r, t, rule, p) && IsFor(c, t, rule, p);
  }

  lemma OwnHas(old_: seq<PlanCommand>, previous: Revision, targets: seq<Target>, r: Renderer, t: Target, rule: PolicyRule, p: Payload) returns (c: PlanCommand)
    requires ShowsOwnPlan(old_, previous, targets, r) && ApprovedAs(previous, targets, r, t, rule, p)
    ensures c in old_ && IsFor(c, t, rule, p) && r.approved(t, rule) == Some(p)
  {
    hide Deployable, IsApproved;
    assert HasCommand(old_, t, rule, p);
    c :| c in old_ && IsFor(c, t, rule, p);
  }

  lemma UnsafeIsRefused(approved: map<PolicyKey, Payload>, old_: seq<PlanCommand>, previous: Revision, next: Revision, targets: seq<Target>, r: Renderer,
                        commands: seq<PlanCommand>, upserts: seq<PlanCommand>, t: Target, was: PolicyRule, now: PolicyRule, p: Payload)
    requires TargetsApart(targets) && ShowsApproved(approved, old_) && ShowsOwnPlan(old_, previous, targets, r) && KeysOnce(previous.rules)
    requires (forall d :: d in upserts <==> Emitted(d, next, targets, r)) && (forall d :: d in upserts ==> HasCore(commands, d))
    requires ApprovedAs(previous, targets, r, t, was, p) && KeepsDeny(next, r, t, was, now) && t in targets && was in previous.rules
    requires forall c :: c in commands ==> Agrees(c, approved, r.matching)
    ensures DenyKept(r, t, now, p)
  {
    hide Deployable, MatchKept, ShowsApproved, ShowsOwnPlan, ApprovedAs, Emitted;
    var c := KeptCommand(next, targets, r, commands, upserts, t, was, now);
    var e := OwnHas(old_, previous, targets, r, t, was, p);
    var f := CommandOf(approved, old_, e);
    var s, other, q := OwnCommand(f, old_, previous, targets, r);
    SameTarget(targets, s, t);
    assert other == was && q == p;
    assert Agrees(c, approved, r.matching);
  }

  lemma KeptCommand(next: Revision, targets: seq<Target>, r: Renderer, commands: seq<PlanCommand>, upserts: seq<PlanCommand>, t: Target, was: PolicyRule, now: PolicyRule)
    returns (c: PlanCommand)
    requires (forall d :: d in upserts <==> Emitted(d, next, targets, r)) && (forall d :: d in upserts ==> HasCore(commands, d))
    requires KeepsDeny(next, r, t, was, now) && t in targets
    ensures c in commands && c.verb == Upsert && PolicyKeyOf(c) == (t.name, now.context, now.name) && r.desired(t, now) == Some(c.payload)
  {
    hide Deployable;
    DeployableRenders(t, now, r);
    var d := UpsertFor(t, now, r);
    assert Emits(d, t, now, r);
    assert Emitted(d, next, targets, r);
    assert HasCore(commands, d);
    c :| c in commands && Core(c) == Core(d);
  }

  lemma DeployableRenders(t: Target, rule: PolicyRule, r: Renderer)
    requires Deployable(t, rule, r)
    ensures r.desired(t, rule).Some?
  {
  }

  lemma CommandOf(approved: map<PolicyKey, Payload>, old_: seq<PlanCommand>, e: PlanCommand) returns (f: PlanCommand)
    requires ShowsApproved(approved, old_) && e in old_
    ensures f in old_ && PolicyKeyOf(f) == PolicyKeyOf(e) && PolicyKeyOf(e) in approved && approved[PolicyKeyOf(e)] == f.payload
  {
    f :| f in old_ && PolicyKeyOf(f) == PolicyKeyOf(e) && f.payload == approved[PolicyKeyOf(e)];
  }

  /** The refusals of a plan are exactly the DENYs that change their match. */
  lemma RefusalsAreUnsafe(approved: map<PolicyKey, Payload>, old_: seq<PlanCommand>, previous: Revision, next: Revision, targets: seq<Target>, r: Renderer,
                          upserts: seq<PlanCommand>, deletes: seq<PlanCommand>)
    requires TargetsApart(targets) && ShowsApproved(approved, old_) && ShowsOwnPlan(old_, previous, targets, r)
    requires (forall d :: d in upserts <==> Emitted(d, next, targets, r)) && forall d :: d in deletes ==> d.verb == Delete
    ensures var none := forall c :: c in Ordered(upserts, deletes, targets) ==> Agrees(c, approved, r.matching);
      && (DeniesKept(previous, next, targets, r) ==> none)
      && (KeysOnce(previous.rules) && none ==> DeniesKept(previous, next, targets, r))
  {
    hide Ordered, Deployable, Emitted, MatchKept, ApprovedAs, ShowsApproved, ShowsOwnPlan, KeysOnce, KeepsDeny, DenyKept;
    forall d | d in upserts ensures d.verb == Upsert { var t, rule := EmittedIsFor(d, next, targets, r); }
    OrderedFacts(upserts, deletes, targets);
    var commands := Ordered(upserts, deletes, targets);
    if DeniesKept(previous, next, targets, r) {
      forall c | c in commands ensures Agrees(c, approved, r.matching) {
        if c.verb == Upsert { RefusedIsUnsafe(c, approved, old_, previous, next, targets, r, upserts); }
      }
    }
    if KeysOnce(previous.rules) && forall c :: c in commands ==> Agrees(c, approved, r.matching) {
      forall t, was, now, p | ApprovedAs(previous, targets, r, t, was, p) && KeepsDeny(next, r, t, was, now) ensures DenyKept(r, t, now, p) {
        ApprovedRule(previous, targets, r, t, was, p);
        UnsafeIsRefused(approved, old_, previous, next, targets, r, commands, upserts, t, was, now, p);
      }
    }
  }

  lemma ApprovedRule(previous: Revision, targets: seq<Target>, r: Renderer, t: Target, rule: PolicyRule, p: Payload)
    requires ApprovedAs(previous, targets, r, t, rule, p)
    ensures t in targets && rule in previous.rules
  {
  }

  // ---------------------------------------------------------------- the planner

  function BaseOf(previous: Option<Revision>): seq<PolicyRule> {
    if previous.Some? then previous.value.rules else []
  }

  /** Every target that holds the base ends with the next revision. */
  ghost predicate Reaches(commands: seq<PlanCommand>, targets: seq<Target>, base: seq<PolicyRule>, next: seq<PolicyRule>) {
    forall t, state: map<string, Payload> :: t in targets && state.Keys == ManagedNames(base, t) ==> ReachesOn(commands, t, state, next)
  }

  predicate ReachesOn(commands: seq<PlanCommand>, t: Target, state: map<string, Payload>, next: seq<PolicyRule>) {
    Apply(commands, t.name, state).Keys == ManagedNames(next, t)
  }

  /** Both revisions manage the same names everywhere. */
  ghost predicate NamesStay(targets: seq<Target>, base: seq<PolicyRule>, next: seq<PolicyRule>) {
    forall t :: t in targets ==> ManagedNames(base, t) == ManagedNames(next, t)
  }

  /** An empty plan reaches the next revision only if there is nowhere to go. */
  lemma EmptyPlanReaches(targets: seq<Target>, base: seq<PolicyRule>, next: seq<PolicyRule>)
    ensures Reaches([], targets, base, next) <==> NamesStay(targets, base, next)
  {
    hide ManagedNames;
    if Reaches([], targets, base, next) {
      forall t | t in targets ensures ManagedNames(base, t) == ManagedNames(next, t) {
        var state := map n | n in ManagedNames(base, t) :: Payload(false, map[]);
        assert state.Keys == ManagedNames(base, t);
        assert ReachesOn([], t, state, next);
      }
    }
  }

  lemma MadePlanReaches(d: Draft)
    requires PlanMade(d) && NamesOk(d.base) && NamesOk(d.next)
    ensures Reaches(d.commands, d.targets, d.base, d.next)
  {
    hide PlanMade, Apply, ManagedNames, NamesOk;
    forall t, state: map<string, Payload> | t in d.targets && state.Keys == ManagedNames(d.base, t) ensures ReachesOn(d.commands, t, state, d.next) {
      PlanReachesNext(d, t, state);
    }
  }

  // ---------------------------------------------------------------- what a plan consists of

  ghost predicate WritesRule(c: PlanCommand, t: Target, rule: PolicyRule, r: Renderer) {
    && c.verb == Upsert && c.target == t.name && c.context == rule.context && c.name == rule.name
    && r.desired(t, rule) == Some(c.payload)
  }

  /** Nothing in the next revision stands for the rule any more. */
  ghost predicate Dropped(rule: PolicyRule, next: seq<PolicyRule>, r: Renderer) {
    rule.name != "" && forall now :: now in next && now.context == rule.context && now.name == rule.name ==> !r.family(now)
  }

  /** Every command has its reason: a rule of the next revision as it is to be, or a
      dropped rule of the base as it was. */
  ghost predicate HasReason(c: PlanCommand, base: seq<PolicyRule>, next: seq<PolicyRule>, targets: seq<Target>, r: Renderer) {
    if c.verb == Upsert then exists t, rule :: t in targets && rule in next && rule.context in t.contexts && WritesRule(c, t, rule, r)
    else exists t, rule :: t in targets && rule in base && rule.context in t.contexts && Dropped(rule, next, r) && DeletesRule(c, t, rule, r)
  }

  /** A rule is written to its target, and its name leaves the anchor alone. */
  ghost predicate IsWritten(commands: seq<PlanCommand>, t: Target, rule: PolicyRule, r: Renderer) {
    && (exists c :: c in commands && WritesRule(c, t, rule, r))
    && r.family(rule) && (Trim(t.anchor) == "" || Lower(rule.name) != Lower(Trim(t.anchor)))
  }

  ghost predicate IsDeleted(commands: seq<PlanCommand>, t: Target, rule: PolicyRule) {
    exists c :: c in commands && c.verb == Delete && c.target == t.name && c.context == rule.context && c.name == rule.name
  }

  /** UPSERTs first; then the DELETEs of ACCEPTs by name, then those of DENYs by name. */
  ghost predicate InExecutionOrder(commands: seq<PlanCommand>) {
    && (forall i :: 0 <= i < |commands| ==> commands[i].sequence == i + 1)
    && (forall i, j :: 0 <= i < j < |commands| ==> FollowsWell(commands[i], commands[j]))
  }

  ghost predicate FollowsWell(first: PlanCommand, second: PlanCommand) {
    if second.verb == Upsert then first.verb == Upsert
    else first.verb == Delete ==>
      if first.payload.deny == second.payload.deny then !TextLess(second.name, first.name) else second.payload.deny
  }

  ghost predicate SoundPlan(commands: seq<PlanCommand>, base: seq<PolicyRule>, next: seq<PolicyRule>, targets: seq<Target>, r: Renderer) {
    && (forall c :: c in commands ==> HasReason(c, base, next, targets, r))
    && (forall t, rule :: t in targets && rule in next && rule.context in t.contexts ==> IsWritten(commands, t, rule, r))
    && (forall t, rule :: t in targets && rule in base && rule.context in t.contexts && Dropped(rule, next, r) ==> IsDeleted(commands, t, rule))
    && InExecutionOrder(commands)
  }

  lemma DroppedIs(rule: PolicyRule, next: seq<PolicyRule>, r: Renderer)
    ensures Dropped(rule, next, r) <==> rule.name != "" && KeyOf(rule) !in NextKeys(next, r)
  {
  }

  lemma CommandHasReason(d: Draft, c: PlanCommand)
    requires PlanMade(d) && c in d.commands
    ensures HasReason(c, d.base, d.next, d.targets, d.r)
  {
    hide Ordered, ContextsOf, On, ForContexts, CompatibleUpTo, NextKeys, Deployable, Dropped;
    var o := OriginOf(d, c);
    if c.verb == Upsert {
      var t: Target :| t in d.targets && t.name == o.target;
      UpsertsOfTarget(d.upserts, d.next, d.targets, d.r, t);
      var rule :| rule in d.next && rule.context in t.contexts && ComesFrom(o, t, rule, d.r);
      assert WritesRule(c, t, rule, d.r);
    } else {
      var t, rule :| t in d.targets && rule in d.removed && rule.context in t.contexts && DeletesRule(o, t, rule, d.r);
      DroppedIs(rule, d.next, d.r);
      assert DeletesRule(c, t, rule, d.r);
    }
  }

  lemma DroppedIsDeleted(d: Draft, t: Target, rule: PolicyRule)
    requires PlanMade(d) && t in d.targets && rule in d.base && rule.context in t.contexts && Dropped(rule, d.next, d.r)
    ensures IsDeleted(d.commands, t, rule)
  {
    hide Ordered, ContextsOf, On, ForContexts, CompatibleUpTo, NextKeys, Planned, Dropped;
    DroppedIs(rule, d.next, d.r);
    var gone :| gone in d.removed && KeyOf(gone) == KeyOf(rule);
    assert Deleted(d.deletes, t, gone, d.r);
    var o :| o in d.deletes && DeletesRule(o, t, gone, d.r);
    var c := PlaceOf(d, o);
  }

  lemma RuleWritten(d: Draft, t: Target, rule: PolicyRule)
    requires PlanMade(d) && t in d.targets && rule in d.next && rule.context in t.contexts
    ensures IsWritten(d.commands, t, rule, d.r)
  {
    hide Ordered, ContextsOf, On, ForContexts, CompatibleUpTo, RemovedAre, DeletesSound, DeletesComplete;
    assert Deployable(t, rule, d.r);
    UpsertsOfTarget(d.upserts, d.next, d.targets, d.r, t);
    var o := UpsertFor(t, rule, d.r);
    assert ComesFrom(o, t, rule, d.r);
    var c := PlaceOf(d, o);
    assert WritesRule(c, t, rule, d.r);
  }

  lemma OrderIsSound(d: Draft)
    requires PlanMade(d)
    ensures InExecutionOrder(d.commands)
  {
    hide Blocks, DeletesSorted, TargetNames, ContextsOf, On, ForContexts, CompatibleUpTo, RemovedAre, DeletesSound, DeletesComplete, Planned;
    VerbsApart(d);
    var a, b := Blocks(d.upserts, d.targets, TargetNames(d.upserts)), DeletesSorted(d.deletes);
    BlocksMembers(d.upserts, d.targets, TargetNames(d.upserts));
    DeletesInOrder(d.deletes);
    DeletesSortedMembers(d.deletes);
    forall i, j | 0 <= i < j < |d.commands| ensures FollowsWell(d.commands[i], d.commands[j]) {
      if i < |a| { InBlock(a, d.upserts, i); } else { assert b[i - |a|] in b && b[j - |a|] in b; }
      if |a| <= j { assert b[j - |a|] in b; } else { InBlock(a, d.upserts, j); }
    }
  }

  lemma InBlock(a: seq<PlanCommand>, upserts: seq<PlanCommand>, i: nat)
    requires i < |a| && (forall c :: c in upserts ==> c.verb == Upsert)
    requires forall c :: c in a ==> exists d :: d in upserts && Core(d) == Core(c)
    ensures a[i].verb == Upsert
  {
    assert a[i] in a;
  }

  lemma MadePlanIsSound(d: Draft)
    requires PlanMade(d)
    ensures SoundPlan(d.commands, d.base, d.next, d.targets, d.r)
  {
    hide PlanMade, HasReason, IsWritten, IsDeleted, Dropped, InExecutionOrder;
    forall c | c in d.commands ensures HasReason(c, d.base, d.next, d.targets, d.r) { CommandHasReason(d, c); }
    forall t, rule | t in d.targets && rule in d.next && rule.context in t.contexts ensures IsWritten(d.commands, t, rule, d.r) { RuleWritten(d, t, rule); }
    forall t, rule | t in d.targets && rule in d.base && rule.context in t.contexts && Dropped(rule, d.next, d.r) ensures IsDeleted(d.commands, t, rule) {
      DroppedIsDeleted(d, t, rule);
    }
    OrderIsSound(d);
  }

  /** What an error-free plan needs of the two revisions. */
  ghost predicate Plannable(previous: Option<Revision>, next: Revision, targets: seq<Target>, r: Renderer) {
    && UpsertsReady(next, targets, r) && RemovalsReady(BaseOf(previous), next.rules, targets, r)
    && (previous.Some? ==> DeniesKept(previous.value, next, targets, r))
  }

  /** The whole planner. Its plan takes every target that holds the base to the next
      revision, unless neither revision has contexts: then it does nothing. */
  method GeneratePlan(previous: Option<Revision>, next: Revision, targets: seq<Target>, r: Renderer)
    returns (commands: seq<PlanCommand>, errors: nat, idle: bool, ghost d: Draft)
    requires TargetsApart(targets)
    ensures idle <==> next.contexts == {} && (previous.None? || previous.value.contexts == {})
    ensures idle ==> commands == [] && errors == 0
    ensures !idle && errors == 0 ==> SoundPlan(commands, BaseOf(previous), next.rules, targets, r)
    ensures !idle && errors == 0 ==> PlanMade(d) && d.commands == commands
    ensures d.targets == targets && d.next == next.rules && d.base == BaseOf(previous) && d.r == r
    ensures Plannable(previous, next, targets, r) && CompatibleUpTo(commands, |commands|) ==> errors == 0
    ensures errors == 0 && KeysOnce(BaseOf(previous)) ==> idle || (Plannable(previous, next, targets, r) && CompatibleUpTo(commands, |commands|))
    ensures !idle && errors == 0 ==> UpsertsReady(next, targets, r) && CompatibleUpTo(commands, |commands|)
    ensures errors == 0 && NamesOk(next.rules) && NamesOk(BaseOf(previous)) ==>
      (Reaches(commands, targets, BaseOf(previous), next.rules) <==> !idle || NamesStay(targets, BaseOf(previous), next.rules))
  {
    hide Planned, RemovedAre, DeletesSound, DeletesComplete, CompatibleUpTo, TargetsApart, Ordered, NextKeys, Apply, NamesOk, UpsertsReady, Removable;
    hide DeniesKept, KeysOnce, Agrees, ShowsApproved, ShowsOwnPlan, Emitted, Reaches, NamesStay, RemovalsReady, SoundPlan;
    commands, errors := [], 0;
    idle := next.contexts == {} && (previous.None? || previous.value.contexts == {});
    d := Draft([], [], [], BaseOf(previous), next.rules, targets, [], r);
    if idle {
      EmptyPlanReaches(targets, BaseOf(previous), next.rules);
      return;
    }
    var upserts, failed := PlanUpserts(next, targets, r);
    errors := failed;
    var removed, deletes, more := PlanRemoved(previous, next, targets, r);
    errors := errors + more;
    commands := FinaliseOrder(upserts, deletes, targets);
    if previous.Some? {
      var approved, old_ := ApprovedPayloads(previous.value, targets, r);
      var refused := CountUnsafeDenies(commands, approved, r.matching);
      errors := errors + refused;
      RefusalsAreUnsafe(approved, old_, previous.value, next, targets, r, upserts, deletes);
    }
    var conflicts := CountConflicts(commands);
    errors := errors + conflicts;
    d := Draft(commands, upserts, deletes, BaseOf(previous), next.rules, targets, removed, r);
    if errors == 0 {
      EveryRuleDeployable(next, targets, r);
      assert PlanMade(d);
      MadePlanIsSound(d);
      hide PlanMade;
      if NamesOk(next.rules) && NamesOk(BaseOf(previous)) { MadePlanReaches(d); }
    }
  }

  lemma NoneLeftOut(base: seq<PolicyRule>, next: seq<PolicyRule>, removed: seq<PolicyRule>, targets: seq<Target>, r: Renderer)
    requires KeysOnce(base) && RemovedAre(removed, base, NextKeys(next, r))
    requires forall rule :: rule in removed ==> Removable(targets, rule, r)
    requires forall rule :: rule in base && rule.name != "" ==> FamilyKnown(base, KeyOf(rule), r)
    ensures RemovalsReady(base, next, targets, r)
  {
    hide Removable, NextKeys;
    forall rule | rule in base && rule.name != "" && KeyOf(rule) !in NextKeys(next, r) ensures Removable(targets, rule, r) {
      assert HasKey(removed, KeyOf(rule));
    }
  }

  /** The removals of a plan; there are none without a previous revision. */
  method PlanRemoved(previous: Option<Revision>, next: Revision, targets: seq<Target>, r: Renderer)
    returns (removed: seq<PolicyRule>, deletes: seq<PlanCommand>, errors: nat)
    requires TargetsApart(targets)
    ensures errors == 0 ==> RemovedAre(removed, BaseOf(previous), NextKeys(next.rules, r))
    ensures errors == 0 ==> DeletesSound(deletes, targets, removed, r) && DeletesComplete(deletes, targets, removed, r)
    ensures RemovalsReady(BaseOf(previous), next.rules, targets, r) ==> errors == 0
    ensures errors == 0 && KeysOnce(BaseOf(previous)) ==> RemovalsReady(BaseOf(previous), next.rules, targets, r)
    ensures forall c :: c in deletes ==> c.verb == Delete
  {
    hide DeletesSound, DeletesComplete, NextKeys, Removable, TargetsApart;
    removed, deletes, errors := [], [], 0;
    if previous.None? {
      NothingToRemove(targets, NextKeys(next.rules, r), r);
      return;
    }
    var kept := CollectNextKeys(next.rules, r);
    var failed;
    removed, failed := CollectRemoved(previous.value.rules, kept, r);
    errors := failed;
    if errors == 0 { SortedAreRemoved(previous.value.rules, kept, removed); }
    removed := RulesSorted(removed);
    deletes, failed := PlanRemovals(removed, targets, r);
    errors := errors + failed;
    if errors == 0 && KeysOnce(BaseOf(previous)) { NoneLeftOut(BaseOf(previous), next.rules, removed, targets, r); }
  }

  /** A revision without contexts still had a rule for a target; the next one has
      neither. The plan is free of errors and leaves the policy where it is. */
  method IdlePlanLeavesPolicy(r: Renderer) returns (commands: seq<PlanCommand>, errors: nat)
    ensures errors == 0 && commands == []
    ensures var t, rule := Target("edge", ["dmz"], "last"), PolicyRule("dmz", "web", 0);
      !Reaches(commands, [t], [rule], []) && ManagedNames([rule], t) == {"web"} && ManagedNames([], t) == {}
  {
    var t, rule := Target("edge", ["dmz"], "last"), PolicyRule("dmz", "web", 0);
    var idle;
    ghost var d;
    commands, errors, idle, d := GeneratePlan(Some(Revision({}, [rule])), Revision({}, []), [t], r);
    assert rule in [rule] && "dmz" in t.contexts && "web" in ManagedNames([rule], t);
    assert t in [t];
    EmptyPlanReaches([t], [rule], []);
  }
}
