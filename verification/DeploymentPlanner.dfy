/** From two revisions of the reviewed policy to the commands between them. */
module DeploymentPlanner {
  import opened Options
  import opened Texts
  import opened Jsons

  datatype Payload = Payload(deny: bool, fields: map<string, Json>)

  datatype Target = Target(name: string, contexts: seq<string>, anchor: string)

  datatype PolicyRule = PolicyRule(context: string, name: string, content: nat)

  /** `contexts` are the target contexts the revision declares. */
  datatype Revision = Revision(contexts: set<string>, rules: seq<PolicyRule>)

  /** How rules turn into payloads: `family` and `desired` with the objects of the
      next revision; with those of the base `oldFamily`, `approved` as an UPSERT and
      `rebuilt` as a DELETE. Each may fail. `matching` are the fields that decide
      which packets a policy matches, with their defaults. */
  datatype Renderer = Renderer(family: PolicyRule -> bool, desired: (Target, PolicyRule) -> Option<Payload>,
                               oldFamily: PolicyRule -> bool, approved: (Target, PolicyRule) -> Option<Payload>,
                               rebuilt: (Target, PolicyRule) -> Option<Payload>, matching: map<string, Json>)

  datatype Verb = Upsert | Delete

  datatype PlanCommand = PlanCommand(target: string, verb: Verb, context: string, name: string,
                                     payload: Payload, insertBefore: string, sequence: nat)

  ghost predicate TargetsApart(targets: seq<Target>) {
    forall i, j :: 0 <= i < j < |targets| ==> targets[i].name != targets[j].name
  }

  // ---------------------------------------------------------------- sorting by name

  function Ranked(ts: seq<Target>, t: Target): seq<Target> {
    if ts == [] then [t]
    else if TextLess(t.name, ts[0].name) then [t] + ts
    else [ts[0]] + Ranked(ts[1..], t)
  }

  /** The targets of a context, by name. */
  function TargetsOf(targets: seq<Target>, context: string): seq<Target> {
    if targets == [] then []
    else
      var rest := TargetsOf(targets[..|targets| - 1], context);
      if context in targets[|targets| - 1].contexts then Ranked(rest, targets[|targets| - 1]) else rest
  }

  lemma {:induction false} RankedFacts(ts: seq<Target>, t: Target)
    ensures forall u :: u in Ranked(ts, t) <==> u in ts || u == t
    ensures TargetsApart(ts) && (forall u :: u in ts ==> u.name != t.name) ==> TargetsApart(Ranked(ts, t))
  {
    if ts != [] {
      assert ts == [ts[0]] + ts[1..];
      if TextLess(t.name, ts[0].name) {
        assert Ranked(ts, t) == [t] + ts;
      } else {
        RankedFacts(ts[1..], t);
        var rest := Ranked(ts[1..], t);
        assert Ranked(ts, t) == [ts[0]] + rest;
        if TargetsApart(ts) && (forall u :: u in ts ==> u.name != t.name) {
          forall u | u in rest ensures u.name != ts[0].name {
            if u in ts[1..] {
              var i :| 0 <= i < |ts[1..]| && ts[1..][i] == u;
              assert ts[i + 1] == u;
            }
          }
        }
      }
    }
  }

  lemma {:induction false} TargetsOfFacts(targets: seq<Target>, context: string)
    requires TargetsApart(targets)
    ensures forall t :: t in TargetsOf(targets, context) <==> t in targets && context in t.contexts
    ensures TargetsApart(TargetsOf(targets, context))
  {
    if targets != [] {
      var init, last := targets[..|targets| - 1], targets[|targets| - 1];
      assert targets == init + [last];
      TargetsOfFacts(init, context);
      RankedFacts(TargetsOf(init, context), last);
      forall u | u in TargetsOf(init, context) ensures u.name != last.name {
        var i :| 0 <= i < |init| && init[i] == u;
        assert targets[i] == u;
      }
    }
  }

  function Filed(cs: seq<string>, c: string): seq<string> {
    if cs == [] then [c]
    else if cs[0] == c then cs
    else if TextLess(c, cs[0]) then [c] + cs
    else [cs[0]] + Filed(cs[1..], c)
  }

  /** The contexts that rules refer to, in order, each once. */
  function ContextsOf(rules: seq<PolicyRule>): seq<string> {
    if rules == [] then [] else Filed(ContextsOf(rules[..|rules| - 1]), rules[|rules| - 1].context)
  }

  lemma {:induction false} FiledFacts(cs: seq<string>, c: string)
    ensures forall d :: d in Filed(cs, c) <==> d in cs || d == c
  {
    if cs != [] && cs[0] != c && !TextLess(c, cs[0]) {
      FiledFacts(cs[1..], c);
      assert cs == [cs[0]] + cs[1..];
    }
  }

  lemma {:induction false} ContextsOfFacts(rules: seq<PolicyRule>)
    ensures forall rule :: rule in rules ==> rule.context in ContextsOf(rules)
  {
    if rules != [] {
      var init, last := rules[..|rules| - 1], rules[|rules| - 1];
      assert rules == init + [last];
      ContextsOfFacts(init);
      FiledFacts(ContextsOf(init), last.context);
    }
  }

  // ---------------------------------------------------------------- UPSERTs

  predicate Collides(t: Target, name: string) {
    Trim(t.anchor) != "" && Lower(name) == Lower(Trim(t.anchor))
  }

  /** The rule can be deployed to the target as it is: it can be rendered, and its name
      is not that of the anchor. */
  ghost predicate Deployable(t: Target, rule: PolicyRule, r: Renderer) {
    && (Trim(t.anchor) == "" || Lower(rule.name) != Lower(Trim(t.anchor)))
    && r.family(rule) && r.desired(t, rule).Some?
  }

  function UpsertFor(t: Target, rule: PolicyRule, r: Renderer): PlanCommand
    requires r.desired(t, rule).Some?
  {
    PlanCommand(t.name, Upsert, rule.context, rule.name, r.desired(t, rule).value, "", 0)
  }

  /** The UPSERTs of one context for one target, in reviewed order. */
  function ForContext(t: Target, rules: seq<PolicyRule>, context: string, r: Renderer): seq<PlanCommand> {
    if rules == [] then []
    else
      var last := rules[|rules| - 1];
      ForContext(t, rules[..|rules| - 1], context, r)
      + if last.context == context && r.desired(t, last).Some? then [UpsertFor(t, last, r)] else []
  }

  /** The UPSERTs of several contexts for one target. */
  function ForContexts(t: Target, rules: seq<PolicyRule>, contexts: seq<string>, r: Renderer): seq<PlanCommand> {
    if contexts == [] then []
    else
      var last := contexts[|contexts| - 1];
      ForContexts(t, rules, contexts[..|contexts| - 1], r) + if last in t.contexts then ForContext(t, rules, last, r) else []
  }

  ghost predicate AllDeployable(t: Target, rules: seq<PolicyRule>, context: string, r: Renderer) {
    forall rule :: rule in rules && rule.context == context ==> Deployable(t, rule, r)
  }

  ghost predicate Emits(c: PlanCommand, t: Target, rule: PolicyRule, r: Renderer) {
    Deployable(t, rule, r) && c == UpsertFor(t, rule, r)
  }

  /** With or without errors, what a context emits for a target are its deployable rules. */
  ghost predicate FromContext(c: PlanCommand, t: Target, rules: seq<PolicyRule>, context: string, r: Renderer) {
    exists rule :: rule in rules && rule.context == context && Emits(c, t, rule, r)
  }

  ghost predicate FromTargets(c: PlanCommand, ts: seq<Target>, n: nat, rules: seq<PolicyRule>, context: string, r: Renderer) {
    exists l :: 0 <= l < n && l < |ts| && FromContext(c, ts[l], rules, context, r)
  }

  ghost predicate FromContexts(c: PlanCommand, targets: seq<Target>, contexts: seq<string>, n: nat, next: Revision, r: Renderer) {
    exists l :: 0 <= l < n && l < |contexts| && FromOne(c, targets, contexts[l], next, r)
  }

  ghost predicate FromOne(c: PlanCommand, targets: seq<Target>, context: string, next: Revision, r: Renderer) {
    context in next.contexts && exists t :: t in targets && context in t.contexts && FromContext(c, t, next.rules, context, r)
  }

  method PlanContext(t: Target, rules: seq<PolicyRule>, context: string, r: Renderer) returns (commands: seq<PlanCommand>, errors: nat)
    ensures errors == 0 <==> AllDeployable(t, rules, context, r)
    ensures errors == 0 ==> commands == ForContext(t, rules, context, r)
    ensures forall c :: c in commands <==> FromContext(c, t, rules, context, r)
  {
    commands, errors := [], 0;
    for i := 0 to |rules|
      invariant forall c :: c in commands <==> FromContext(c, t, rules[..i], context, r)
      invariant errors == 0 <==> AllDeployable(t, rules[..i], context, r)
      invariant errors == 0 ==> commands == ForContext(t, rules[..i], context, r)
    {
      assert rules[..i + 1][..i] == rules[..i];
      assert forall rule :: rule in rules[..i + 1] <==> rule in rules[..i] || rule == rules[i];
      var rule := rules[i];
      if rule.context == context {
        if Collides(t, rule.name) || !r.family(rule) || r.desired(t, rule).None? {
          errors := errors + 1;
        } else {
          commands := commands + [UpsertFor(t, rule, r)];
        }
      }
    }
    assert rules[..|rules|] == rules;
  }

  /** The commands for one target. */
  function On(commands: seq<PlanCommand>, name: string): seq<PlanCommand> {
    if commands == [] then []
    else On(commands[..|commands| - 1], name) + if commands[|commands| - 1].target == name then [commands[|commands| - 1]] else []
  }

  lemma {:induction false} OnAppend(a: seq<PlanCommand>, b: seq<PlanCommand>, name: string)
    ensures On(a + b, name) == On(a, name) + On(b, name)
  {
    if b == [] {
      assert a + b == a;
    } else {
      OnAppend(a, b[..|b| - 1], name);
      assert (a + b)[..|a + b| - 1] == a + b[..|b| - 1];
    }
  }

  lemma {:induction false} OnMembers(commands: seq<PlanCommand>, name: string)
    ensures forall c :: c in On(commands, name) <==> c in commands && c.target == name
  {
    if commands != [] {
      OnMembers(commands[..|commands| - 1], name);
      assert commands == commands[..|commands| - 1] + [commands[|commands| - 1]];
    }
  }

  lemma {:induction false} ForContextIsOn(t: Target, rules: seq<PolicyRule>, context: string, r: Renderer, name: string)
    ensures On(ForContext(t, rules, context, r), name) == if t.name == name then ForContext(t, rules, context, r) else []
  {
    if rules != [] {
      var init, last := rules[..|rules| - 1], rules[|rules| - 1];
      ForContextIsOn(t, init, context, r, name);
      var a := ForContext(t, init, context, r);
      var b := if last.context == context && r.desired(t, last).Some? then [UpsertFor(t, last, r)] else [];
      OnAppend(a, b, name);
      OneCommand(b, t.name, name);
    }
  }

  ghost predicate ComesFrom(c: PlanCommand, t: Target, rule: PolicyRule, r: Renderer) {
    r.desired(t, rule).Some? && c == UpsertFor(t, rule, r)
  }

  lemma {:induction false} ForContextMembers(t: Target, rules: seq<PolicyRule>, context: string, r: Renderer)
    ensures forall c :: c in ForContext(t, rules, context, r) <==>
      exists rule :: rule in rules && rule.context == context && ComesFrom(c, t, rule, r)
  {
    if rules != [] {
      var init, last := rules[..|rules| - 1], rules[|rules| - 1];
      assert forall rule :: rule in rules <==> rule in init || rule == last by { assert rules == init + [last]; }
      ForContextMembers(t, init, context, r);
      forall c ensures c in ForContext(t, rules, context, r) <==>
        exists rule :: rule in rules && rule.context == context && ComesFrom(c, t, rule, r)
      {
        if last.context == context && ComesFrom(c, t, last, r) { assert c in ForContext(t, rules, context, r); }
      }
    }
  }

  lemma OneCommand(b: seq<PlanCommand>, target: string, name: string)
    requires |b| <= 1 && forall c :: c in b ==> c.target == target
    ensures On(b, name) == if target == name then b else []
  {
    if b != [] {
      assert b[0] in b && b[..0] == [];
      assert On(b, name) == On(b[..0], name) + if b[0].target == name then [b[0]] else [];
    }
  }

  /** Every target gets the UPSERTs of its contexts, in order. */
  ghost predicate Planned(commands: seq<PlanCommand>, targets: seq<Target>, rules: seq<PolicyRule>, contexts: seq<string>, r: Renderer) {
    && (forall t :: t in targets ==> On(commands, t.name) == ForContexts(t, rules, contexts, r))
    && (forall c :: c in commands ==> c.verb == Upsert && exists t :: t in targets && t.name == c.target)
  }

  ghost predicate ContextReady(targets: seq<Target>, rules: seq<PolicyRule>, declared: set<string>, context: string, r: Renderer) {
    && context in declared
    && forall t :: t in targets && context in t.contexts ==> AllDeployable(t, rules, context, r)
  }

  lemma NothingOn()
    ensures forall name: string :: On([], name) == []
  {
  }

  lemma FromNobody(ts: seq<Target>, rules: seq<PolicyRule>, context: string, r: Renderer)
    ensures forall c :: !FromTargets(c, ts, 0, rules, context, r)
  {
  }

  lemma FromOneMore(commands: seq<PlanCommand>, more: seq<PlanCommand>, ts: seq<Target>, i: nat, rules: seq<PolicyRule>, context: string, r: Renderer)
    requires i < |ts| && (forall c :: c in commands <==> FromTargets(c, ts, i, rules, context, r))
    requires forall c :: c in more <==> FromContext(c, ts[i], rules, context, r)
    ensures forall c :: c in commands + more <==> FromTargets(c, ts, i + 1, rules, context, r)
  {
    hide FromContext;
  }

  /** The first `n` targets have their UPSERTs, the others none. */
  ghost predicate PlannedOn(commands: seq<PlanCommand>, targets: seq<Target>, ts: seq<Target>, n: nat, rules: seq<PolicyRule>, context: string, r: Renderer)
    requires n <= |ts|
  {
    && (forall l :: 0 <= l < n ==> On(commands, ts[l].name) == ForContext(ts[l], rules, context, r))
    && (forall name: string :: (forall l :: 0 <= l < n ==> ts[l].name != name) ==> On(commands, name) == [])
    && (forall c :: c in commands ==> c.verb == Upsert && exists t :: t in targets && t.name == c.target)
  }

  lemma NothingPlannedOn(targets: seq<Target>, ts: seq<Target>, rules: seq<PolicyRule>, context: string, r: Renderer)
    ensures PlannedOn([], targets, ts, 0, rules, context, r)
  {
    NothingOn();
  }

  lemma PlannedOnMore(commands: seq<PlanCommand>, more: seq<PlanCommand>, targets: seq<Target>, ts: seq<Target>, i: nat, rules: seq<PolicyRule>, context: string, r: Renderer)
    requires i < |ts| && TargetsApart(ts) && ts[i] in targets && PlannedOn(commands, targets, ts, i, rules, context, r)
    requires more == ForContext(ts[i], rules, context, r)
    ensures PlannedOn(commands + more, targets, ts, i + 1, rules, context, r)
  {
    hide ForContext, On;
    forall name: string ensures On(commands + more, name) == On(commands, name) + if ts[i].name == name then more else [] {
      OnAppend(commands, more, name);
      ForContextIsOn(ts[i], rules, context, r, name);
    }
    ForContextMembers(ts[i], rules, context, r);
    assert [] + more == more;
  }

  method PlanContextOnTargets(targets: seq<Target>, ts: seq<Target>, rules: seq<PolicyRule>, context: string, r: Renderer)
    returns (commands: seq<PlanCommand>, errors: nat)
    requires TargetsApart(targets) && ts == TargetsOf(targets, context)
    ensures errors == 0 ==> forall t :: t in targets ==>
      On(commands, t.name) == if context in t.contexts then ForContext(t, rules, context, r) else []
    ensures errors == 0 <==> forall t :: t in targets && context in t.contexts ==> AllDeployable(t, rules, context, r)
    ensures errors == 0 ==> forall c :: c in commands ==> c.verb == Upsert && exists t :: t in targets && t.name == c.target
    ensures forall c :: c in commands <==> FromTargets(c, ts, |ts|, rules, context, r)
  {
    hide ForContext, On, AllDeployable, FromTargets, FromContext, PlannedOn, TargetsOf;
    commands, errors := [], 0;
    TargetsOfFacts(targets, context);
    NothingPlannedOn(targets, ts, rules, context, r);
    FromNobody(ts, rules, context, r);
    for i := 0 to |ts|
      invariant forall c :: c in commands <==> FromTargets(c, ts, i, rules, context, r)
      invariant errors == 0 ==> PlannedOn(commands, targets, ts, i, rules, context, r)
      invariant errors == 0 <==> forall l :: 0 <= l < i ==> AllDeployable(ts[l], rules, context, r)
    {
      var more, failed := PlanContext(ts[i], rules, context, r);
      FromOneMore(commands, more, ts, i, rules, context, r);
      assert ts[i] in ts;
      if errors == 0 && failed == 0 { PlannedOnMore(commands, more, targets, ts, i, rules, context, r); }
      commands, errors := commands + more, errors + failed;
    }
    if errors == 0 { PlannedOnAll(commands, targets, ts, rules, context, r); }
  }

  lemma PlannedOnAll(commands: seq<PlanCommand>, targets: seq<Target>, ts: seq<Target>, rules: seq<PolicyRule>, context: string, r: Renderer)
    requires TargetsApart(targets) && ts == TargetsOf(targets, context) && PlannedOn(commands, targets, ts, |ts|, rules, context, r)
    ensures forall t :: t in targets ==> On(commands, t.name) == if context in t.contexts then ForContext(t, rules, context, r) else []
    ensures forall c :: c in commands ==> c.verb == Upsert && exists t :: t in targets && t.name == c.target
  {
    hide ForContext, On, TargetsOf, TargetsApart;
    forall t | t in targets ensures On(commands, t.name) == if context in t.contexts then ForContext(t, rules, context, r) else [] {
      OnOneTarget(targets, ts, context, t);
    }
  }

  lemma OnOneTarget(targets: seq<Target>, ts: seq<Target>, context: string, t: Target)
    requires TargetsApart(targets) && ts == TargetsOf(targets, context) && t in targets
    ensures context in t.contexts ==> exists l :: 0 <= l < |ts| && ts[l] == t
    ensures context !in t.contexts ==> forall l :: 0 <= l < |ts| ==> ts[l].name != t.name
  {
    TargetsOfFacts(targets, context);
    if context !in t.contexts {
      forall l | 0 <= l < |ts| ensures ts[l].name != t.name {
        assert ts[l] in ts;
        var i :| 0 <= i < |targets| && targets[i] == ts[l];
        var j :| 0 <= j < |targets| && targets[j] == t;
      }
    }
  }

  ghost predicate HasTarget(targets: seq<Target>, context: string) {
    exists t :: t in targets && context in t.contexts
  }

  /** One context: unknown contexts and contexts without a target are errors. */
  method PlanOneContext(next: Revision, targets: seq<Target>, context: string, r: Renderer) returns (commands: seq<PlanCommand>, errors: nat)
    requires TargetsApart(targets)
    ensures errors == 0 <==> ContextReady(targets, next.rules, next.contexts, context, r) && HasTarget(targets, context)
    ensures errors == 0 ==> PlannedFor(commands, targets, next.rules, context, r)
    ensures forall c :: c in commands <==> FromOne(c, targets, context, next, r)
  {
    hide ForContext, On, AllDeployable, FromContext;
    commands, errors := [], 1;
    var ts := TargetsOf(targets, context);
    TargetsOfFacts(targets, context);
    if context in next.contexts && ts != [] {
      assert ts[0] in ts;
      commands, errors := PlanContextOnTargets(targets, ts, next.rules, context, r);
    }
  }

  /** Every target gets the UPSERTs of one context. */
  ghost predicate PlannedFor(commands: seq<PlanCommand>, targets: seq<Target>, rules: seq<PolicyRule>, context: string, r: Renderer) {
    && (forall t :: t in targets ==> On(commands, t.name) == if context in t.contexts then ForContext(t, rules, context, r) else [])
    && (forall c :: c in commands ==> c.verb == Upsert && exists t :: t in targets && t.name == c.target)
  }

  lemma NothingPlanned(targets: seq<Target>, rules: seq<PolicyRule>, r: Renderer)
    ensures Planned([], targets, rules, [], r)
  {
  }

  /** Every context that is used is declared and has a target, and its rules can be
      deployed there. */
  ghost predicate UpsertsReady(next: Revision, targets: seq<Target>, r: Renderer) {
    forall c :: c in ContextsOf(next.rules) ==> ContextReady(targets, next.rules, next.contexts, c, r) && HasTarget(targets, c)
  }

  /** Some deployable rule of a declared context, for one of its targets. */
  ghost predicate Emitted(c: PlanCommand, next: Revision, targets: seq<Target>, r: Renderer) {
    exists t, rule :: t in targets && rule in next.rules && rule.context in next.contexts && rule.context in t.contexts && Emits(c, t, rule, r)
  }

  lemma FromNoContext(targets: seq<Target>, contexts: seq<string>, next: Revision, r: Renderer)
    ensures forall c :: !FromContexts(c, targets, contexts, 0, next, r)
  {
  }

  lemma FromNextContext(commands: seq<PlanCommand>, more: seq<PlanCommand>, targets: seq<Target>, contexts: seq<string>, i: nat, next: Revision, r: Renderer)
    requires i < |contexts| && (forall c :: c in commands <==> FromContexts(c, targets, contexts, i, next, r))
    requires forall c :: c in more <==> FromOne(c, targets, contexts[i], next, r)
    ensures forall c :: c in commands + more <==> FromContexts(c, targets, contexts, i + 1, next, r)
  {
    hide FromOne;
  }

  lemma FromAllContexts(c: PlanCommand, next: Revision, targets: seq<Target>, r: Renderer)
    ensures FromContexts(c, targets, ContextsOf(next.rules), |ContextsOf(next.rules)|, next, r) <==> Emitted(c, next, targets, r)
  {
    hide Emits, ContextsOf;
    var contexts := ContextsOf(next.rules);
    ContextsOfFacts(next.rules);
    if Emitted(c, next, targets, r) {
      var t, rule :| t in targets && rule in next.rules && rule.context in next.contexts && rule.context in t.contexts && Emits(c, t, rule, r);
      assert FromContext(c, t, next.rules, rule.context, r);
      var l :| 0 <= l < |contexts| && contexts[l] == rule.context;
      assert FromOne(c, targets, contexts[l], next, r);
    }
  }

  method PlanUpserts(next: Revision, targets: seq<Target>, r: Renderer) returns (commands: seq<PlanCommand>, errors: nat)
    requires TargetsApart(targets)
    ensures errors == 0 ==> Planned(commands, targets, next.rules, ContextsOf(next.rules), r)
    ensures errors == 0 <==> UpsertsReady(next, targets, r)
    ensures forall c :: c in commands <==> Emitted(c, next, targets, r)
  {
    hide Planned, PlannedFor, ContextReady, HasTarget, TargetsApart, FromContexts, FromOne, Emitted;
    commands, errors := [], 0;
    var contexts := ContextsOf(next.rules);
    assert contexts[..0] == [];
    NothingPlanned(targets, next.rules, r);
    FromNoContext(targets, contexts, next, r);
    for i := 0 to |contexts|
      invariant forall c :: c in commands <==> FromContexts(c, targets, contexts, i, next, r)
      invariant errors == 0 ==> Planned(commands, targets, next.rules, contexts[..i], r)
      invariant errors == 0 <==> forall l :: 0 <= l < i ==> ContextReady(targets, next.rules, next.contexts, contexts[l], r) && HasTarget(targets, contexts[l])
    {
      var more, failed := PlanOneContext(next, targets, contexts[i], r);
      FromNextContext(commands, more, targets, contexts, i, next, r);
      if errors == 0 && failed == 0 { PlannedMore(commands, more, targets, next.rules, contexts, i, r); }
      commands, errors := commands + more, errors + failed;
    }
    assert contexts[..|contexts|] == contexts;
    forall c ensures c in commands <==> Emitted(c, next, targets, r) { FromAllContexts(c, next, targets, r); }
  }

  lemma PlannedMore(commands: seq<PlanCommand>, more: seq<PlanCommand>, targets: seq<Target>, rules: seq<PolicyRule>,
                    contexts: seq<string>, i: nat, r: Renderer)
    requires i < |contexts| && Planned(commands, targets, rules, contexts[..i], r)
    requires PlannedFor(more, targets, rules, contexts[i], r)
    ensures Planned(commands + more, targets, rules, contexts[..i + 1], r)
  {
    hide On, ForContext;
    assert contexts[..i + 1][..i] == contexts[..i];
    forall t | t in targets ensures On(commands + more, t.name) == ForContexts(t, rules, contexts[..i + 1], r) {
      OnAppend(commands, more, t.name);
    }
  }

  lemma {:induction false} ForContextsFacts(t: Target, rules: seq<PolicyRule>, contexts: seq<string>, r: Renderer)
    ensures forall c :: c in ForContexts(t, rules, contexts, r) <==>
      exists rule :: rule in rules && rule.context in contexts && rule.context in t.contexts && ComesFrom(c, t, rule, r)
  {
    if contexts != [] {
      var init, last := contexts[..|contexts| - 1], contexts[|contexts| - 1];
      assert contexts == init + [last];
      ForContextsFacts(t, rules, init, r);
      ForContextMembers(t, rules, last, r);
    }
  }

  // ---------------------------------------------------------------- DELETEs

  type Key = (string, string)

  function KeyOf(rule: PolicyRule): Key {
    (rule.context, rule.name)
  }

  /** The policies that the next revision still has. */
  function NextKeys(rules: seq<PolicyRule>, r: Renderer): set<Key> {
    set rule | rule in rules && rule.name != "" && r.family(rule) :: KeyOf(rule)
  }

  /** `removed` are the named base rules whose key is gone. */
  ghost predicate RemovedAre(removed: seq<PolicyRule>, base: seq<PolicyRule>, kept: set<Key>) {
    && (forall d :: d in removed ==> d in base && d.name != "" && KeyOf(d) !in kept)
    && (forall rule :: rule in base && rule.name != "" && KeyOf(rule) !in kept ==> HasKey(removed, KeyOf(rule)))
  }

  ghost predicate HasKey(rules: seq<PolicyRule>, key: Key) {
    exists d :: d in rules && KeyOf(d) == key
  }

  method CollectNextKeys(rules: seq<PolicyRule>, r: Renderer) returns (keys: set<Key>)
    ensures keys == NextKeys(rules, r)
  {
    keys := {};
    for i := 0 to |rules|
      invariant keys == NextKeys(rules[..i], r)
    {
      assert rules[..i + 1] == rules[..i] + [rules[i]];
      if rules[i].name != "" && r.family(rules[i]) { keys := keys + {KeyOf(rules[i])}; }
    }
    assert rules[..|rules|] == rules;
  }

  /** A rule with this key had an address family. */
  ghost predicate FamilyKnown(base: seq<PolicyRule>, key: Key, r: Renderer) {
    exists rule :: rule in base && KeyOf(rule) == key && r.oldFamily(rule)
  }

  method CollectRemoved(base: seq<PolicyRule>, kept: set<Key>, r: Renderer) returns (removed: seq<PolicyRule>, errors: nat)
    ensures errors == 0 ==> RemovedAre(removed, base, kept)
    ensures (forall rule :: rule in base && rule.name != "" ==> r.oldFamily(rule)) ==> errors == 0
    ensures errors == 0 ==> forall rule :: rule in base && rule.name != "" ==> FamilyKnown(base, KeyOf(rule), r)
  {
    removed, errors := [], 0;
    var seen: set<Key> := {};
    for i := 0 to |base|
      invariant errors == 0 ==> RemovedAre(removed, base[..i], kept)
      invariant forall key :: key in seen ==> HasKey(removed, key)
      invariant (forall rule :: rule in base && rule.name != "" ==> r.oldFamily(rule)) ==> errors == 0
      invariant forall key :: key in seen ==> FamilyKnown(base, key, r)
      invariant errors == 0 ==> forall rule :: rule in base[..i] && rule.name != "" ==> FamilyKnown(base, KeyOf(rule), r)
    {
      assert forall rule :: rule in base[..i + 1] <==> rule in base[..i] || rule == base[i] by { assert base[..i + 1] == base[..i] + [base[i]]; }
      var rule := base[i];
      assert rule in base;
      ghost var before := removed;
      if rule.name != "" && KeyOf(rule) !in seen {
        if !r.oldFamily(rule) {
          errors := errors + 1;
        } else if KeyOf(rule) !in kept {
          seen := seen + {KeyOf(rule)};
          removed := removed + [rule];
          assert rule in removed;
        }
      }
      forall key | HasKey(before, key) ensures HasKey(removed, key) {
        var d :| d in before && KeyOf(d) == key;
        assert d in removed;
      }
    }
    assert base[..|base|] == base;
  }

  function SortKey(rule: PolicyRule): string {
    rule.context + ['\0'] + rule.name
  }

  function RuleRanked(rules: seq<PolicyRule>, rule: PolicyRule): seq<PolicyRule> {
    if rules == [] then [rule]
    else if TextLess(SortKey(rule), SortKey(rules[0])) then [rule] + rules
    else [rules[0]] + RuleRanked(rules[1..], rule)
  }

  function RulesSorted(rules: seq<PolicyRule>): seq<PolicyRule> {
    if rules == [] then [] else RuleRanked(RulesSorted(rules[..|rules| - 1]), rules[|rules| - 1])
  }

  lemma {:induction false} RuleRankedMembers(rules: seq<PolicyRule>, rule: PolicyRule)
    ensures forall d :: d in RuleRanked(rules, rule) <==> d in rules || d == rule
  {
    if rules != [] {
      assert rules == [rules[0]] + rules[1..];
      RuleRankedMembers(rules[1..], rule);
    }
  }

  lemma {:induction false} RulesSortedMembers(rules: seq<PolicyRule>)
    ensures forall d :: d in RulesSorted(rules) <==> d in rules
  {
    if rules != [] {
      var init, last := rules[..|rules| - 1], rules[|rules| - 1];
      assert rules == init + [last];
      RulesSortedMembers(init);
      RuleRankedMembers(RulesSorted(init), last);
    }
  }

  /** A DELETE of the rule's policy on the target. */
  predicate DeletesRule(c: PlanCommand, t: Target, rule: PolicyRule, r: Renderer) {
    && c.verb == Delete && c.target == t.name && c.context == rule.context && c.name == rule.name
    && r.rebuilt(t, rule) == Some(c.payload)
  }

  ghost predicate DeletesSound(commands: seq<PlanCommand>, targets: seq<Target>, removed: seq<PolicyRule>, r: Renderer) {
    forall c :: c in commands ==> exists t, rule :: t in targets && rule in removed && rule.context in t.contexts && DeletesRule(c, t, rule, r)
  }

  ghost predicate DeletesComplete(commands: seq<PlanCommand>, targets: seq<Target>, removed: seq<PolicyRule>, r: Renderer) {
    forall t, rule :: t in targets && rule in removed && rule.context in t.contexts ==> Deleted(commands, t, rule, r)
  }

  ghost predicate Deleted(commands: seq<PlanCommand>, t: Target, rule: PolicyRule, r: Renderer) {
    exists c :: c in commands && DeletesRule(c, t, rule, r)
  }

  lemma DeletedStays(before: seq<PlanCommand>, c: PlanCommand, t: Target, rule: PolicyRule, r: Renderer)
    requires Deleted(before, t, rule, r) || DeletesRule(c, t, rule, r)
    ensures Deleted(before + [c], t, rule, r)
  {
    hide DeletesRule;
    if Deleted(before, t, rule, r) {
      var d :| d in before && DeletesRule(d, t, rule, r);
      assert d in before + [c];
    } else {
      assert c in before + [c];
    }
  }

  lemma DeletesIt(c: PlanCommand, t: Target, rule: PolicyRule, r: Renderer)
    requires c.verb == Delete && c.target == t.name && c.context == rule.context && c.name == rule.name
    requires r.rebuilt(t, rule) == Some(c.payload)
    ensures DeletesRule(c, t, rule, r)
  {
  }

  method PlanRemovalOn(ts: seq<Target>, rule: PolicyRule, r: Renderer) returns (commands: seq<PlanCommand>, errors: nat)
    ensures errors == 0 ==> forall c :: c in commands ==> exists t :: t in ts && DeletesRule(c, t, rule, r)
    ensures errors == 0 ==> forall t :: t in ts ==> Deleted(commands, t, rule, r)
    ensures errors == 0 <==> forall t :: t in ts ==> r.rebuilt(t, rule).Some?
    ensures forall c :: c in commands ==> c.verb == Delete
  {
    hide Deleted, DeletesRule;
    commands, errors := [], 0;
    for i := 0 to |ts|
      invariant errors == 0 ==> forall c :: c in commands ==> exists t :: t in ts && DeletesRule(c, t, rule, r)
      invariant errors == 0 ==> forall l :: 0 <= l < i ==> Deleted(commands, ts[l], rule, r)
      invariant errors == 0 <==> forall l :: 0 <= l < i ==> r.rebuilt(ts[l], rule).Some?
      invariant forall c :: c in commands ==> c.verb == Delete
    {
      var rebuilt := r.rebuilt(ts[i], rule);
      if rebuilt.None? {
        errors := errors + 1;
      } else {
        var c := PlanCommand(ts[i].name, Delete, rule.context, rule.name, rebuilt.value, "", 0);
        DeletesIt(c, ts[i], rule, r);
        assert ts[i] in ts;
        if errors == 0 {
          forall l | 0 <= l < i + 1 ensures Deleted(commands + [c], ts[l], rule, r) { DeletedStays(commands, c, ts[l], rule, r); }
        }
        commands := commands + [c];
      }
    }
  }

  /** The rule has targets, and its old policy can be rebuilt for all of them. */
  ghost predicate Removable(targets: seq<Target>, rule: PolicyRule, r: Renderer) {
    HasTarget(targets, rule.context) && forall t :: t in targets && rule.context in t.contexts ==> r.rebuilt(t, rule).Some?
  }

  lemma RemovableFrom(targets: seq<Target>, ts: seq<Target>, rule: PolicyRule, r: Renderer)
    requires forall t :: t in ts <==> t in targets && rule.context in t.contexts
    ensures Removable(targets, rule, r) <==> ts != [] && forall t :: t in ts ==> r.rebuilt(t, rule).Some?
  {
    if ts != [] { assert ts[0] in ts; }
  }

  /** The first `n` removed rules are deleted on their targets. */
  ghost predicate DeletesUpTo(commands: seq<PlanCommand>, targets: seq<Target>, removed: seq<PolicyRule>, n: nat, r: Renderer)
    requires n <= |removed|
  {
    && DeletesSound(commands, targets, removed, r)
    && forall t, l :: t in targets && 0 <= l < n && removed[l].context in t.contexts ==> Deleted(commands, t, removed[l], r)
  }

  lemma DeletesMore(commands: seq<PlanCommand>, more: seq<PlanCommand>, targets: seq<Target>, ts: seq<Target>, removed: seq<PolicyRule>, i: nat, r: Renderer)
    requires i < |removed| && DeletesUpTo(commands, targets, removed, i, r)
    requires forall t :: t in ts <==> t in targets && removed[i].context in t.contexts
    requires forall c :: c in more ==> exists t :: t in ts && DeletesRule(c, t, removed[i], r)
    requires forall t :: t in ts ==> Deleted(more, t, removed[i], r)
    ensures DeletesUpTo(commands + more, targets, removed, i + 1, r)
  {
    hide DeletesRule;
    assert removed[i] in removed;
    forall t, l | t in targets && 0 <= l < i + 1 && removed[l].context in t.contexts ensures Deleted(commands + more, t, removed[l], r) {
      if l < i {
        assert Deleted(commands, t, removed[l], r);
        var d :| d in commands && DeletesRule(d, t, removed[l], r);
        assert d in commands + more;
      } else {
        var d :| d in more && DeletesRule(d, t, removed[l], r);
        assert d in commands + more;
      }
    }
  }

  lemma NothingDeleted(targets: seq<Target>, removed: seq<PolicyRule>, r: Renderer)
    ensures DeletesUpTo([], targets, removed, 0, r)
  {
  }

  lemma DeletesAll(commands: seq<PlanCommand>, targets: seq<Target>, removed: seq<PolicyRule>, r: Renderer)
    requires DeletesUpTo(commands, targets, removed, |removed|, r)
    ensures DeletesSound(commands, targets, removed, r) && DeletesComplete(commands, targets, removed, r)
  {
    hide Deleted;
  }

  method PlanRemovals(removed: seq<PolicyRule>, targets: seq<Target>, r: Renderer) returns (commands: seq<PlanCommand>, errors: nat)
    requires TargetsApart(targets)
    ensures errors == 0 ==> DeletesSound(commands, targets, removed, r) && DeletesComplete(commands, targets, removed, r)
    ensures errors == 0 <==> forall rule :: rule in removed ==> Removable(targets, rule, r)
    ensures forall c :: c in commands ==> c.verb == Delete
  {
    hide TargetsOf, DeletesRule, Deleted, Removable, DeletesUpTo, DeletesSound, DeletesComplete;
    commands, errors := [], 0;
    NothingDeleted(targets, removed, r);
    for i := 0 to |removed|
      invariant errors == 0 <==> forall l :: 0 <= l < i ==> Removable(targets, removed[l], r)
      invariant errors == 0 ==> DeletesUpTo(commands, targets, removed, i, r)
      invariant forall c :: c in commands ==> c.verb == Delete
    {
      var ts := TargetsOf(targets, removed[i].context);
      TargetsOfFacts(targets, removed[i].context);
      RemovableFrom(targets, ts, removed[i], r);
      if ts == [] {
        errors := errors + 1;
      } else {
        var more, failed := PlanRemovalOn(ts, removed[i], r);
        if errors == 0 && failed == 0 { DeletesMore(commands, more, targets, ts, removed, i, r); }
        commands, errors := commands + more, errors + failed;
      }
    }
    if errors == 0 { DeletesAll(commands, targets, removed, r); }
  }

  // ---------------------------------------------------------------- the executable order

  /** Every policy is inserted before the one that follows it in reviewed order. */
  function Annotated(commands: seq<PlanCommand>, anchor: string): (r: seq<PlanCommand>)
    ensures |r| == |commands|
    ensures forall i :: 0 <= i < |r| ==> r[i] == commands[i].(insertBefore := if i + 1 < |commands| then commands[i + 1].name else anchor)
  {
    seq(|commands|, i requires 0 <= i < |commands| =>
      commands[i].(insertBefore := if i + 1 < |commands| then commands[i + 1].name else anchor))
  }

  function Reversed(commands: seq<PlanCommand>): (r: seq<PlanCommand>)
    ensures |r| == |commands|
    ensures forall i :: 0 <= i < |r| ==> r[i] == commands[|commands| - 1 - i]
  {
    seq(|commands|, i requires 0 <= i < |commands| => commands[|commands| - 1 - i])
  }

  function AnchorOf(targets: seq<Target>, name: string): string {
    if targets == [] then "" else if targets[0].name == name then Trim(targets[0].anchor) else AnchorOf(targets[1..], name)
  }

  lemma {:induction false} AnchorOfTarget(targets: seq<Target>, t: Target)
    requires TargetsApart(targets) && t in targets
    ensures AnchorOf(targets, t.name) == Trim(t.anchor)
  {
    if targets[0] != t {
      var i :| 0 <= i < |targets| && targets[i] == t;
      assert targets[1..][i - 1] == t;
      AnchorOfTarget(targets[1..], t);
    }
  }

  function TargetNames(commands: seq<PlanCommand>): seq<string> {
    if commands == [] then [] else Filed(TargetNames(commands[..|commands| - 1]), commands[|commands| - 1].target)
  }

  /** The UPSERTs of a target, from the bottom of the block to its top. */
  function BottomUp(upserts: seq<PlanCommand>, targets: seq<Target>, name: string): seq<PlanCommand> {
    Reversed(Annotated(On(upserts, name), AnchorOf(targets, name)))
  }

  function Blocks(upserts: seq<PlanCommand>, targets: seq<Target>, names: seq<string>): seq<PlanCommand> {
    if names == [] then []
    else Blocks(upserts, targets, names[..|names| - 1]) + BottomUp(upserts, targets, names[|names| - 1])
  }

  /** Obsolete ACCEPTs first, each kind by name. */
  predicate DeleteBefore(a: PlanCommand, b: PlanCommand) {
    if a.payload.deny != b.payload.deny then !a.payload.deny else TextLess(a.name, b.name)
  }

  function DeleteRanked(commands: seq<PlanCommand>, c: PlanCommand): seq<PlanCommand> {
    if commands == [] then [c]
    else if DeleteBefore(c, commands[|commands| - 1]) then DeleteRanked(commands[..|commands| - 1], c) + [commands[|commands| - 1]]
    else commands + [c]
  }

  function DeletesSorted(commands: seq<PlanCommand>): seq<PlanCommand> {
    if commands == [] then [] else DeleteRanked(DeletesSorted(commands[..|commands| - 1]), commands[|commands| - 1])
  }

  function Numbered(commands: seq<PlanCommand>): (r: seq<PlanCommand>)
    ensures |r| == |commands|
    ensures forall i :: 0 <= i < |r| ==> r[i] == commands[i].(sequence := i + 1)
  {
    seq(|commands|, i requires 0 <= i < |commands| => commands[i].(sequence := i + 1))
  }

  function Ordered(upserts: seq<PlanCommand>, deletes: seq<PlanCommand>, targets: seq<Target>): seq<PlanCommand> {
    Numbered(Blocks(upserts, targets, TargetNames(upserts)) + DeletesSorted(deletes))
  }

  /** Turns the reviewed order into insertion chains and puts DELETEs last. */
  method FinaliseOrder(upserts: seq<PlanCommand>, deletes: seq<PlanCommand>, targets: seq<Target>) returns (ordered: seq<PlanCommand>)
    ensures ordered == Ordered(upserts, deletes, targets)
  {
    hide On, AnchorOf, TargetNames, DeletesSorted;
    ordered := [];
    var names := TargetNames(upserts);
    for n := 0 to |names|
      invariant ordered == Blocks(upserts, targets, names[..n])
    {
      assert names[..n + 1][..n] == names[..n];
      var chain := AnnotateChain(On(upserts, names[n]), AnchorOf(targets, names[n]));
      var block := ReverseChain(chain);
      ordered := ordered + block;
    }
    assert names[..|names|] == names;
    ordered := Numbered(ordered + DeletesSorted(deletes));
  }

  method ReverseChain(chain: seq<PlanCommand>) returns (block: seq<PlanCommand>)
    ensures block == Reversed(chain)
  {
    block := [];
    var i := |chain|;
    while i > 0
      invariant 0 <= i <= |chain| && |block| == |chain| - i
      invariant forall l :: 0 <= l < |block| ==> block[l] == chain[|chain| - 1 - l]
    {
      i := i - 1;
      block := block + [chain[i]];
    }
  }

  method AnnotateChain(commands: seq<PlanCommand>, anchor: string) returns (chain: seq<PlanCommand>)
    ensures chain == Annotated(commands, anchor)
  {
    chain := [];
    for i := 0 to |commands|
      invariant |chain| == i && forall l :: 0 <= l < i ==> chain[l] == Annotated(commands, anchor)[l]
    {
      var insertBefore := anchor;
      if i + 1 < |commands| { insertBefore := commands[i + 1].name; }
      chain := chain + [commands[i].(insertBefore := insertBefore)];
    }
  }

  // ---------------------------------------------------------------- conflicts

  predicate SameObject(a: PlanCommand, b: PlanCommand) {
    a.name != "" && b.name != "" && a.target == b.target && Lower(a.name) == Lower(b.name)
  }

  predicate Compatible(commands: seq<PlanCommand>, i: nat, j: nat) {
    i < j < |commands| && SameObject(commands[i], commands[j]) ==> commands[i].verb == Delete && commands[j].verb == Upsert
  }

  predicate HasObject(commands: seq<PlanCommand>, l: nat, key: (string, string)) {
    l < |commands| && commands[l].name != "" && (commands[l].target, Lower(commands[l].name)) == key
  }

  /** The operation last seen for an object, while nothing conflicts. */
  ghost predicate SeenSoFar(commands: seq<PlanCommand>, i: nat, seen: map<(string, string), Verb>) {
    && (forall l: nat, key :: l < i && HasObject(commands, l, key) ==> key in seen)
    && (forall key :: key in seen ==> exists l: nat :: l < i && HasObject(commands, l, key) && commands[l].verb == seen[key])
    && (forall l: nat, key :: l < i && HasObject(commands, l, key) && key in seen && seen[key] == Delete ==> commands[l].verb == Delete)
  }

  ghost predicate CompatibleUpTo(commands: seq<PlanCommand>, i: nat) {
    forall l: nat, m: nat :: m < i ==> Compatible(commands, l, m)
  }

  lemma SeenStep(commands: seq<PlanCommand>, i: nat, seen: map<(string, string), Verb>)
    requires i < |commands| && SeenSoFar(commands, i, seen) && CompatibleUpTo(commands, i)
    ensures var c := commands[i]; var key := (c.target, Lower(c.name));
      if c.name == "" then SeenSoFar(commands, i + 1, seen) && CompatibleUpTo(commands, i + 1)
      else if key in seen && !(seen[key] == Delete && c.verb == Upsert) then !CompatibleUpTo(commands, i + 1)
      else SeenSoFar(commands, i + 1, seen[key := c.verb]) && CompatibleUpTo(commands, i + 1)
  {
    hide Lower;
    var c := commands[i];
    var key := (c.target, Lower(c.name));
    if c.name != "" {
      assert HasObject(commands, i, key);
      if key in seen && !(seen[key] == Delete && c.verb == Upsert) {
        var l: nat :| l < i && HasObject(commands, l, key) && commands[l].verb == seen[key];
        assert !Compatible(commands, l, i);
      } else {
        forall l: nat | l < i ensures Compatible(commands, l, i) {
          if SameObject(commands[l], c) { assert HasObject(commands, l, key); }
        }
      }
    }
  }

  lemma NothingSeen(commands: seq<PlanCommand>)
    ensures SeenSoFar(commands, 0, map[]) && CompatibleUpTo(commands, 0)
  {
  }

  /** The same object is touched twice only by a DELETE followed by an UPSERT. */
  method CountConflicts(commands: seq<PlanCommand>) returns (errors: nat)
    ensures errors == 0 <==> CompatibleUpTo(commands, |commands|)
  {
    hide Lower, Compatible, SeenSoFar, CompatibleUpTo;
    errors := 0;
    var seen: map<(string, string), Verb> := map[];
    NothingSeen(commands);
    for i := 0 to |commands|
      invariant errors == 0 ==> SeenSoFar(commands, i, seen)
      invariant errors == 0 <==> CompatibleUpTo(commands, i)
    {
      var c := commands[i];
      if errors == 0 { SeenStep(commands, i, seen); } else { StaysIncompatible(commands, i); }
      if c.name != "" {
        var key := (c.target, Lower(c.name));
        if key in seen && !(seen[key] == Delete && c.verb == Upsert) {
          errors := errors + 1;
        } else {
          seen := seen[key := c.verb];
        }
      }
    }
  }

  lemma StaysIncompatible(commands: seq<PlanCommand>, i: nat)
    ensures !CompatibleUpTo(commands, i) ==> !CompatibleUpTo(commands, i + 1)
  {
  }

  // ---------------------------------------------------------------- what the order keeps

  /** What a command does, whatever its place. */
  function Core(c: PlanCommand): PlanCommand {
    c.(insertBefore := "", sequence := 0)
  }

  ghost predicate HasCore(commands: seq<PlanCommand>, c: PlanCommand) {
    exists d :: d in commands && Core(d) == Core(c)
  }

  lemma {:induction false} DeleteRankedMembers(commands: seq<PlanCommand>, c: PlanCommand)
    ensures forall d :: d in DeleteRanked(commands, c) <==> d in commands || d == c
  {
    if commands != [] {
      assert commands == commands[..|commands| - 1] + [commands[|commands| - 1]];
      DeleteRankedMembers(commands[..|commands| - 1], c);
    }
  }

  /** ACCEPTs come before DENYs, and the names of each kind do not fall. */
  ghost predicate InDeleteOrder(commands: seq<PlanCommand>) {
    forall i, j :: 0 <= i < j < |commands| ==> !DeleteBefore(commands[j], commands[i])
  }

  lemma DeleteBeforeTrans(a: PlanCommand, b: PlanCommand, c: PlanCommand)
    requires DeleteBefore(a, b) && !DeleteBefore(c, b)
    ensures DeleteBefore(a, c)
  {
    TextOrder(b.name, c.name);
    if TextLess(a.name, b.name) && TextLess(b.name, c.name) { TextTrans(a.name, b.name, c.name); }
  }

  lemma {:induction false} DeleteRankedOrder(commands: seq<PlanCommand>, c: PlanCommand)
    requires InDeleteOrder(commands)
    ensures InDeleteOrder(DeleteRanked(commands, c))
  {
    if commands != [] && DeleteBefore(c, commands[|commands| - 1]) {
      var init, last := commands[..|commands| - 1], commands[|commands| - 1];
      DeleteRankedOrder(init, c);
      DeleteRankedMembers(init, c);
      var ranked := DeleteRanked(init, c);
      forall d | d in ranked ensures !DeleteBefore(last, d) {
        if d == c { NotBothBefore(c, last); } else { InInit(commands, d); }
      }
    } else if commands != [] {
      forall i | 0 <= i < |commands| ensures !DeleteBefore(c, commands[i]) {
        if DeleteBefore(c, commands[i]) && i < |commands| - 1 { DeleteBeforeTrans(c, commands[i], commands[|commands| - 1]); }
      }
    }
  }

  lemma NotBothBefore(a: PlanCommand, b: PlanCommand)
    requires DeleteBefore(a, b)
    ensures !DeleteBefore(b, a)
  {
    TextOrder(a.name, b.name);
  }

  lemma InInit(commands: seq<PlanCommand>, d: PlanCommand)
    requires commands != [] && InDeleteOrder(commands) && d in commands[..|commands| - 1]
    ensures !DeleteBefore(commands[|commands| - 1], d)
  {
    hide DeleteBefore;
    var i :| 0 <= i < |commands| - 1 && commands[i] == d;
  }

  /** The DELETEs of a plan run in that order. */
  lemma {:induction false} DeletesInOrder(commands: seq<PlanCommand>)
    ensures InDeleteOrder(DeletesSorted(commands)) && multiset(DeletesSorted(commands)) == multiset(commands)
  {
    if commands != [] {
      var init, last := commands[..|commands| - 1], commands[|commands| - 1];
      assert commands == init + [last];
      DeletesInOrder(init);
      DeleteRankedOrder(DeletesSorted(init), last);
      DeleteRankedItems(DeletesSorted(init), last);
    }
  }

  lemma {:induction false} DeleteRankedItems(commands: seq<PlanCommand>, c: PlanCommand)
    ensures multiset(DeleteRanked(commands, c)) == multiset(commands) + multiset{c}
  {
    if commands != [] {
      assert commands == commands[..|commands| - 1] + [commands[|commands| - 1]];
      DeleteRankedItems(commands[..|commands| - 1], c);
    }
  }

  lemma {:induction false} DeletesSortedMembers(commands: seq<PlanCommand>)
    ensures forall d :: d in DeletesSorted(commands) <==> d in commands
  {
    if commands != [] {
      assert commands == commands[..|commands| - 1] + [commands[|commands| - 1]];
      DeletesSortedMembers(commands[..|commands| - 1]);
      DeleteRankedMembers(DeletesSorted(commands[..|commands| - 1]), commands[|commands| - 1]);
    }
  }

  lemma {:induction false} TargetNamesMembers(commands: seq<PlanCommand>)
    ensures forall name :: name in TargetNames(commands) <==> exists c :: c in commands && c.target == name
  {
    if commands != [] {
      var init, last := commands[..|commands| - 1], commands[|commands| - 1];
      assert forall c :: c in commands <==> c in init || c == last by { assert commands == init + [last]; }
      TargetNamesMembers(init);
      FiledFacts(TargetNames(init), last.target);
    }
  }

  /** `TargetNames` lists every name once. */
  lemma {:induction false} FiledOnce(cs: seq<string>, c: string)
    requires Rising(cs)
    ensures Rising(Filed(cs, c))
  {
    if cs != [] && cs[0] != c {
      assert cs == [cs[0]] + cs[1..];
      if TextLess(c, cs[0]) {
        forall j | 0 <= j < |cs| ensures TextLess(c, cs[j]) {
          if j > 0 { TextTrans(c, cs[0], cs[j]); }
        }
      } else {
        TextOrder(c, cs[0]);
        FiledOnce(cs[1..], c);
        FiledFacts(cs[1..], c);
        var rest := Filed(cs[1..], c);
        forall j | 0 <= j < |rest| ensures TextLess(cs[0], rest[j]) {
          assert rest[j] in rest;
          if rest[j] in cs[1..] {
            var l :| 0 <= l < |cs[1..]| && cs[1..][l] == rest[j];
            assert cs[l + 1] == rest[j];
          }
        }
      }
    }
  }

  predicate Rising(cs: seq<string>) {
    forall i, j :: 0 <= i < j < |cs| ==> TextLess(cs[i], cs[j])
  }

  lemma {:induction false} TargetNamesRise(commands: seq<PlanCommand>)
    ensures Rising(TargetNames(commands))
  {
    if commands != [] {
      TargetNamesRise(commands[..|commands| - 1]);
      FiledOnce(TargetNames(commands[..|commands| - 1]), commands[|commands| - 1].target);
    }
  }

  lemma BottomUpMembers(upserts: seq<PlanCommand>, targets: seq<Target>, name: string)
    ensures forall c :: c in BottomUp(upserts, targets, name) ==> c.target == name && HasCore(upserts, c)
    ensures forall c :: c in upserts && c.target == name ==> HasCore(BottomUp(upserts, targets, name), c)
    ensures (forall c :: c in upserts ==> c.verb == Upsert) ==> forall c :: c in BottomUp(upserts, targets, name) ==> c.verb == Upsert
  {
    var on := On(upserts, name);
    var block := BottomUp(upserts, targets, name);
    OnMembers(upserts, name);
    forall c | c in block ensures c.target == name && HasCore(upserts, c) && ((forall d :: d in upserts ==> d.verb == Upsert) ==> c.verb == Upsert) {
      var i :| 0 <= i < |block| && block[i] == c;
      assert on[|on| - 1 - i] in on;
    }
    forall c | c in upserts && c.target == name ensures HasCore(block, c) {
      var i :| 0 <= i < |on| && on[i] == c;
      assert block[|on| - 1 - i] in block;
    }
  }

  lemma {:induction false} BlocksMembers(upserts: seq<PlanCommand>, targets: seq<Target>, names: seq<string>)
    requires forall c :: c in upserts ==> c.verb == Upsert
    ensures forall c :: c in Blocks(upserts, targets, names) ==> c.verb == Upsert && HasCore(upserts, c)
    ensures forall c :: c in upserts && c.target in names ==> HasCore(Blocks(upserts, targets, names), c)
  {
    hide BottomUp, Core;
    if names != [] {
      var init, last := names[..|names| - 1], names[|names| - 1];
      assert names == init + [last];
      BlocksMembers(upserts, targets, init);
      BottomUpMembers(upserts, targets, last);
      var a, b := Blocks(upserts, targets, init), BottomUp(upserts, targets, last);
      forall c | c in upserts && c.target in names ensures HasCore(a + b, c) {
        if c.target in init {
          var d :| d in a && Core(d) == Core(c);
          assert d in a + b;
        } else {
          var d :| d in b && Core(d) == Core(c);
          assert d in a + b;
        }
      }
    }
  }

  /** The executable order has the same commands, all UPSERTs before all DELETEs. */
  lemma OrderedFacts(upserts: seq<PlanCommand>, deletes: seq<PlanCommand>, targets: seq<Target>)
    requires (forall c :: c in upserts ==> c.verb == Upsert) && forall c :: c in deletes ==> c.verb == Delete
    ensures var all := Ordered(upserts, deletes, targets);
      && (forall c :: c in all ==> HasCore(if c.verb == Upsert then upserts else deletes, c))
      && (forall c :: c in upserts || c in deletes ==> HasCore(all, c))
      && (forall i, j :: 0 <= i < j < |all| && all[j].verb == Upsert ==> all[i].verb == Upsert)
  {
    hide BottomUp, Blocks, DeletesSorted, TargetNames;
    var a, b := Blocks(upserts, targets, TargetNames(upserts)), DeletesSorted(deletes);
    BlocksMembers(upserts, targets, TargetNames(upserts));
    TargetNamesMembers(upserts);
    DeletesSortedMembers(deletes);
    var all := Ordered(upserts, deletes, targets);
    forall i | 0 <= i < |all| ensures all[i].verb == Upsert <==> i < |a|
                             ensures HasCore(if all[i].verb == Upsert then upserts else deletes, all[i]) {
      if i < |a| {
        assert a[i] in a;
        var d :| d in upserts && Core(d) == Core(a[i]);
        assert Core(d) == Core(all[i]);
      } else {
        assert b[i - |a|] in b;
        assert Core(b[i - |a|]) == Core(all[i]);
      }
    }
    forall c | c in upserts || c in deletes ensures HasCore(all, c) { StaysInOrder(upserts, deletes, targets, c); }
  }

  lemma OwnCore(commands: seq<PlanCommand>, c: PlanCommand)
    requires c in commands
    ensures HasCore(commands, c)
  {
  }

  lemma StaysInOrder(upserts: seq<PlanCommand>, deletes: seq<PlanCommand>, targets: seq<Target>, c: PlanCommand)
    requires (forall d :: d in upserts ==> d.verb == Upsert) && (c in upserts || c in deletes)
    ensures HasCore(Ordered(upserts, deletes, targets), c)
  {
    hide Blocks, DeletesSorted, TargetNames, HasCore;
    var a, b := Blocks(upserts, targets, TargetNames(upserts)), DeletesSorted(deletes);
    if c in upserts {
      BlocksMembers(upserts, targets, TargetNames(upserts));
      TargetNamesMembers(upserts);
      assert c.target in TargetNames(upserts);
      CoreSurvives(a, a + b, c);
    } else {
      DeletesSortedMembers(deletes);
      OwnCore(b, c);
      CoreSurvives(b, a + b, c);
    }
  }

  lemma CoreSurvives(part: seq<PlanCommand>, whole: seq<PlanCommand>, c: PlanCommand)
    requires HasCore(part, c) && forall d :: d in part ==> d in whole
    ensures HasCore(Numbered(whole), c)
  {
    var d :| d in part && Core(d) == Core(c);
    var i :| 0 <= i < |whole| && whole[i] == d;
    assert Numbered(whole)[i] in Numbered(whole) && Core(Numbered(whole)[i]) == Core(c);
  }

  // ---------------------------------------------------------------- what a plan does to a target

  /** A target holds named policies. */
  function Apply(commands: seq<PlanCommand>, name: string, state: map<string, Payload>): map<string, Payload> {
    if commands == [] then state
    else
      var before, c := Apply(commands[..|commands| - 1], name, state), commands[|commands| - 1];
      if c.target != name then before
      else if c.verb == Upsert then before[c.name := c.payload]
      else before - {c.name}
  }

  /** The names that a revision manages on a target. */
  function ManagedNames(rules: seq<PolicyRule>, t: Target): set<string> {
    set rule | rule in rules && rule.context in t.contexts :: rule.name
  }

  predicate Touches(c: PlanCommand, target: string, name: string, verb: Verb) {
    c.target == target && c.name == name && c.verb == verb
  }

  ghost predicate Touched(commands: seq<PlanCommand>, target: string, name: string, verb: Verb) {
    exists c :: c in commands && Touches(c, target, name, verb)
  }

  ghost predicate NamesOk(rules: seq<PolicyRule>) {
    forall rule :: rule in rules ==> rule.name != ""
  }

  /** No two commands for one policy of the target. */
  predicate OneEach(commands: seq<PlanCommand>, target: string, i: nat, j: nat) {
    i < j < |commands| && commands[i].target == target && commands[j].target == target ==> commands[i].name != commands[j].name
  }

  lemma {:induction false} ApplyFacts(commands: seq<PlanCommand>, target: string, state: map<string, Payload>, name: string)
    requires forall i: nat, j: nat :: OneEach(commands, target, i, j)
    ensures var after := Apply(commands, target, state);
      name in after <==> Touched(commands, target, name, Upsert) || (name in state && !Touched(commands, target, name, Delete))
    ensures forall c :: c in commands && Touches(c, target, name, Upsert) ==>
      name in Apply(commands, target, state) && Apply(commands, target, state)[name] == c.payload
  {
    if commands != [] {
      var init, last := commands[..|commands| - 1], commands[|commands| - 1];
      assert forall c :: c in commands <==> c in init || c == last by { assert commands == init + [last]; }
      forall i: nat, j: nat ensures OneEach(init, target, i, j) { assert OneEach(commands, target, i, j); }
      ApplyFacts(init, target, state, name);
      forall c | c in init && c.target == target && last.target == target ensures c.name != last.name {
        var i: nat :| i < |init| && init[i] == c;
        assert OneEach(commands, target, i, |commands| - 1);
      }
    }
  }

  /** A plan in the making: its commands and where they come from. */
  datatype Draft = Draft(commands: seq<PlanCommand>, upserts: seq<PlanCommand>, deletes: seq<PlanCommand>,
                         base: seq<PolicyRule>, next: seq<PolicyRule>, targets: seq<Target>, removed: seq<PolicyRule>, r: Renderer)

  /** What is known of an error-free plan. */
  ghost predicate PlanMade(d: Draft) {
    && TargetsApart(d.targets)
    && Planned(d.upserts, d.targets, d.next, ContextsOf(d.next), d.r)
    && (forall rule, t :: rule in d.next && t in d.targets && rule.context in t.contexts ==> Deployable(t, rule, d.r))
    && RemovedAre(d.removed, d.base, NextKeys(d.next, d.r))
    && DeletesSound(d.deletes, d.targets, d.removed, d.r) && DeletesComplete(d.deletes, d.targets, d.removed, d.r)
    && d.commands == Ordered(d.upserts, d.deletes, d.targets)
    && CompatibleUpTo(d.commands, |d.commands|)
  }

  lemma VerbsApart(d: Draft)
    requires PlanMade(d)
    ensures (forall c :: c in d.upserts ==> c.verb == Upsert) && forall c :: c in d.deletes ==> c.verb == Delete
  {
    hide Ordered, ContextsOf, On, ForContexts;
  }

  lemma OriginOf(d: Draft, c: PlanCommand) returns (o: PlanCommand)
    requires PlanMade(d) && c in d.commands
    ensures o in (if c.verb == Upsert then d.upserts else d.deletes) && Core(o) == Core(c)
  {
    hide Ordered, ContextsOf, On, ForContexts;
    VerbsApart(d);
    OrderedFacts(d.upserts, d.deletes, d.targets);
    assert HasCore(if c.verb == Upsert then d.upserts else d.deletes, c);
    o :| o in (if c.verb == Upsert then d.upserts else d.deletes) && Core(o) == Core(c);
  }

  lemma PlaceOf(d: Draft, o: PlanCommand) returns (c: PlanCommand)
    requires PlanMade(d) && (o in d.upserts || o in d.deletes)
    ensures c in d.commands && Core(c) == Core(o)
  {
    hide Ordered, ContextsOf, On, ForContexts;
    VerbsApart(d);
    OrderedFacts(d.upserts, d.deletes, d.targets);
    assert HasCore(d.commands, o);
    c :| c in d.commands && Core(c) == Core(o);
  }

  /** With all UPSERTs first, nothing may be touched twice. */
  lemma PlanTouchesOnce(d: Draft, i: nat, j: nat)
    requires PlanMade(d) && i < |d.commands| && j < |d.commands| && i != j
    ensures !SameObject(d.commands[i], d.commands[j])
  {
    hide Ordered, ContextsOf, On, ForContexts;
    VerbsApart(d);
    OrderedFacts(d.upserts, d.deletes, d.targets);
    assert Compatible(d.commands, i, j) && Compatible(d.commands, j, i);
  }

  lemma UpsertsOfTarget(upserts: seq<PlanCommand>, next: seq<PolicyRule>, targets: seq<Target>, r: Renderer, t: Target)
    requires Planned(upserts, targets, next, ContextsOf(next), r) && t in targets
    ensures forall c :: c in upserts && c.target == t.name <==>
      exists rule :: rule in next && rule.context in t.contexts && ComesFrom(c, t, rule, r)
  {
    hide ForContexts, On;
    OnMembers(upserts, t.name);
    ForContextsFacts(t, next, ContextsOf(next), r);
    ContextsOfFacts(next);
  }

  /** Every managed rule is written, as rendered. */
  lemma RuleIsWritten(d: Draft, t: Target, rule: PolicyRule) returns (c: PlanCommand)
    requires PlanMade(d) && t in d.targets && rule in d.next && rule.context in t.contexts
    ensures c in d.commands && Touches(c, t.name, rule.name, Upsert) && d.r.desired(t, rule) == Some(c.payload)
  {
    hide Ordered, ContextsOf, On, ForContexts, CompatibleUpTo, RemovedAre, DeletesSound, DeletesComplete;
    UpsertsOfTarget(d.upserts, d.next, d.targets, d.r, t);
    assert Deployable(t, rule, d.r);
    var o := UpsertFor(t, rule, d.r);
    assert ComesFrom(o, t, rule, d.r);
    c := PlaceOf(d, o);
  }

  /** Nothing but managed rules is written. */
  lemma WrittenIsRule(d: Draft, t: Target, c: PlanCommand) returns (rule: PolicyRule)
    requires PlanMade(d) && t in d.targets && c in d.commands && c.target == t.name && c.verb == Upsert
    ensures rule in d.next && rule.context in t.contexts && rule.name == c.name
  {
    hide Ordered, ContextsOf, On, ForContexts, CompatibleUpTo, RemovedAre, DeletesSound, DeletesComplete;
    UpsertsOfTarget(d.upserts, d.next, d.targets, d.r, t);
    var o := OriginOf(d, c);
    rule :| rule in d.next && rule.context in t.contexts && ComesFrom(o, t, rule, d.r);
  }

  /** Nothing but dropped rules of the base is removed. */
  lemma RemovedIsRule(d: Draft, t: Target, c: PlanCommand) returns (rule: PolicyRule)
    requires PlanMade(d) && t in d.targets && c in d.commands && c.target == t.name && c.verb == Delete
    ensures rule in d.base && rule.context in t.contexts && rule.name == c.name
  {
    hide Ordered, ContextsOf, On, ForContexts, CompatibleUpTo;
    var o := OriginOf(d, c);
    var u, gone :| u in d.targets && gone in d.removed && gone.context in u.contexts && DeletesRule(o, u, gone, d.r);
    SameTarget(d.targets, t, u);
    rule := gone;
  }

  lemma SameTarget(targets: seq<Target>, t: Target, u: Target)
    requires TargetsApart(targets) && t in targets && u in targets && t.name == u.name
    ensures t == u
  {
    var i :| 0 <= i < |targets| && targets[i] == t;
    var j :| 0 <= j < |targets| && targets[j] == u;
  }

  /** A rule that the next revision has dropped is removed. */
  lemma DroppedIsRemoved(d: Draft, t: Target, rule: PolicyRule) returns (c: PlanCommand)
    requires PlanMade(d) && t in d.targets && rule in d.base && rule.context in t.contexts && rule.name != ""
    requires rule.name !in ManagedNames(d.next, t)
    ensures c in d.commands && Touches(c, t.name, rule.name, Delete)
  {
    hide Ordered, ContextsOf, On, ForContexts, CompatibleUpTo, Planned;
    assert KeyOf(rule) !in NextKeys(d.next, d.r);
    var gone :| gone in d.removed && KeyOf(gone) == KeyOf(rule);
    assert Deleted(d.deletes, t, gone, d.r);
    var o :| o in d.deletes && DeletesRule(o, t, gone, d.r);
    c := PlaceOf(d, o);
  }

  lemma NoNameTwice(d: Draft, t: Target)
    requires PlanMade(d) && t in d.targets && NamesOk(d.base) && NamesOk(d.next)
    ensures forall i: nat, j: nat :: OneEach(d.commands, t.name, i, j)
  {
    hide PlanMade;
    forall i: nat, j: nat ensures OneEach(d.commands, t.name, i, j) {
      if i < j < |d.commands| && d.commands[i].target == t.name {
        PlanTouchesOnce(d, i, j);
        CommandIsNamed(d, t, d.commands[i]);
      }
    }
  }

  lemma CommandIsNamed(d: Draft, t: Target, c: PlanCommand)
    requires PlanMade(d) && t in d.targets && NamesOk(d.base) && NamesOk(d.next) && c in d.commands && c.target == t.name
    ensures c.name != ""
  {
    hide PlanMade;
    var rule: PolicyRule;
    if c.verb == Upsert { rule := WrittenIsRule(d, t, c); } else { rule := RemovedIsRule(d, t, c); }
  }

  /** No policy is both written and removed. */
  lemma WrittenOrRemoved(d: Draft, t: Target, name: string)
    requires PlanMade(d) && t in d.targets && NamesOk(d.base) && NamesOk(d.next)
    ensures !(Touched(d.commands, t.name, name, Upsert) && Touched(d.commands, t.name, name, Delete))
  {
    hide PlanMade;
    if Touched(d.commands, t.name, name, Upsert) && Touched(d.commands, t.name, name, Delete) {
      var a :| a in d.commands && Touches(a, t.name, name, Upsert);
      var b :| b in d.commands && Touches(b, t.name, name, Delete);
      var i: nat :| i < |d.commands| && d.commands[i] == a;
      var j: nat :| j < |d.commands| && d.commands[j] == b;
      CommandIsNamed(d, t, a);
      PlanTouchesOnce(d, i, j);
    }
  }

  /** On a target that holds exactly the policies of the base revision, an
      error-free plan leaves exactly those of the next revision, each as rendered. */
  lemma PlanReachesNext(d: Draft, t: Target, state: map<string, Payload>)
    requires PlanMade(d) && t in d.targets && NamesOk(d.base) && NamesOk(d.next) && state.Keys == ManagedNames(d.base, t)
    ensures Apply(d.commands, t.name, state).Keys == ManagedNames(d.next, t)
    ensures forall rule :: rule in d.next && rule.context in t.contexts ==> d.r.desired(t, rule) == Some(Apply(d.commands, t.name, state)[rule.name])
  {
    hide PlanMade, Apply;
    NoNameTwice(d, t);
    var after := Apply(d.commands, t.name, state);
    forall rule | rule in d.next && rule.context in t.contexts
      ensures rule.name in after && d.r.desired(t, rule) == Some(after[rule.name])
    {
      ApplyFacts(d.commands, t.name, state, rule.name);
      var c := RuleIsWritten(d, t, rule);
    }
    forall name | name in after ensures name in ManagedNames(d.next, t) {
      ApplyFacts(d.commands, t.name, state, name);
      if Touched(d.commands, t.name, name, Upsert) {
        var c :| c in d.commands && Touches(c, t.name, name, Upsert);
        var rule := WrittenIsRule(d, t, c);
      } else if name !in ManagedNames(d.next, t) {
        var rule :| rule in d.base && rule.context in t.contexts && rule.name == name;
        var c := DroppedIsRemoved(d, t, rule);
      }
    }
  }

  lemma SortedAreRemoved(base: seq<PolicyRule>, kept: set<Key>, removed: seq<PolicyRule>)
    requires RemovedAre(removed, base, kept)
    ensures RemovedAre(RulesSorted(removed), base, kept)
  {
    RulesSortedMembers(removed);
    forall rule | rule in base && rule.name != "" && KeyOf(rule) !in kept ensures HasKey(RulesSorted(removed), KeyOf(rule)) {
      var d :| d in removed && KeyOf(d) == KeyOf(rule);
      assert d in RulesSorted(removed);
    }
  }

  lemma NothingToRemove(targets: seq<Target>, kept: set<Key>, r: Renderer)
    ensures RemovedAre([], [], kept) && DeletesSound([], targets, [], r) && DeletesComplete([], targets, [], r)
  {
  }
}
