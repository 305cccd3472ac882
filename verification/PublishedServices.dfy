/** The published services, indexed for matching device policies. */
module PublishedServices {
  import opened Options
  import opened Texts
  import opened FiniteSets

  datatype Rule = Rule(policyName: string, context: string)
  datatype Service = Service(name: string, rules: seq<Rule>)
  datatype RuleIdentity = RuleIdentity(service: string, context: string)
  datatype Index = Index(services: map<string, string>, byName: map<string, seq<RuleIdentity>>)

  function Canonical(name: string): string {
    Lower(Trim(name))
  }

  // ---------------------------------------------------------------- what the index shows

  /** The last published service with this canonical name. */
  function LastNamed(published: seq<Service>, key: string): Option<string> {
    if published == [] || key == "" then None
    else
      var last := published[|published| - 1];
      if Canonical(last.name) == key then Some(last.name) else LastNamed(published[..|published| - 1], key)
  }

  /** The rules of one service with this policy name. */
  function RulesNamed(service: Service, n: nat, key: string): seq<RuleIdentity>
    requires n <= |service.rules|
  {
    if n == 0 then []
    else
      var before := RulesNamed(service, n - 1, key);
      if Canonical(service.rules[n - 1].policyName) == key then before + [RuleIdentity(service.name, service.rules[n - 1].context)] else before
  }

  /** All rules with this policy name, in published order. */
  function Candidates(published: seq<Service>, key: string): seq<RuleIdentity> {
    if published == [] || key == "" then []
    else
      var last := published[|published| - 1];
      var before := Candidates(published[..|published| - 1], key);
      if Canonical(last.name) == "" then before else before + RulesNamed(last, |last.rules|, key)
  }

  function At(byName: map<string, seq<RuleIdentity>>, key: string): seq<RuleIdentity> {
    if key in byName then byName[key] else []
  }

  ghost predicate Shows(index: Index, published: seq<Service>) {
    && (forall key :: key in index.services <==> LastNamed(published, key).Some?)
    && (forall key :: key in index.services ==> LastNamed(published, key) == Some(index.services[key]))
    && (forall key :: At(index.byName, key) == Candidates(published, key))
  }

  method BuildIndex(published: seq<Service>) returns (index: Index)
    ensures Shows(index, published)
  {
    hide Shows, Canonical, AddedAt;
    index := Index(map[], map[]);
    var i := 0;
    NothingShown();
    assert published[..0] == [];
    while i < |published|
      invariant 0 <= i <= |published|
      invariant Shows(index, published[..i])
    {
      var service := published[i];
      var key := Canonical(service.name);
      if key != "" {
        var byName := AddRules(index.byName, service);
        ShownMore(index, published, i, byName);
        index := Index(index.services[key := service.name], byName);
      } else {
        ShownSame(index, published, i);
      }
      i := i + 1;
    }
    assert published[..i] == published;
  }

  method AddRules(byName: map<string, seq<RuleIdentity>>, service: Service) returns (more: map<string, seq<RuleIdentity>>)
    ensures forall k :: AddedAt(byName, more, service, |service.rules|, k)
  {
    hide Canonical, At, RulesNamed, AddedAt;
    more := byName;
    assert forall k :: AddedAt(byName, byName, service, 0, k) by { NoneAdded(byName, service); }
    var j := 0;
    while j < |service.rules|
      invariant 0 <= j <= |service.rules|
      invariant forall k :: AddedAt(byName, more, service, j, k)
    {
      var name := Canonical(service.rules[j].policyName);
      var rule := RuleIdentity(service.name, service.rules[j].context);
      ghost var before := more;
      if name != "" { more := more[name := At(more, name) + [rule]]; }
      RuleAdded(byName, before, more, service, j, j + 1);
      j := j + 1;
    }
  }

  /** The rules with the key `k` once the first `j` rules of the service are added. */
  ghost predicate AddedAt(byName: map<string, seq<RuleIdentity>>, more: map<string, seq<RuleIdentity>>, service: Service, j: nat, k: string)
    requires j <= |service.rules|
  {
    At(more, k) == if k == "" then At(byName, k) else At(byName, k) + RulesNamed(service, j, k)
  }

  lemma RuleAdded(byName: map<string, seq<RuleIdentity>>, more: map<string, seq<RuleIdentity>>, after: map<string, seq<RuleIdentity>>, service: Service, j: nat, n: nat)
    requires n == j + 1 <= |service.rules| && forall k :: AddedAt(byName, more, service, j, k)
    requires var name, rule := Canonical(service.rules[j].policyName), RuleIdentity(service.name, service.rules[j].context);
      after == if name != "" then more[name := At(more, name) + [rule]] else more
    ensures forall k :: AddedAt(byName, after, service, n, k)
  {
    hide Canonical, RulesNamed, At;
    var name, rule := Canonical(service.rules[j].policyName), RuleIdentity(service.name, service.rules[j].context);
    OneMoreRule(service, j);
    AtUpdated(more, name, At(more, name) + [rule]);
    forall k ensures AddedAt(byName, after, service, n, k) { assert AddedAt(byName, more, service, j, k); }
  }

  lemma NoneAdded(byName: map<string, seq<RuleIdentity>>, service: Service)
    ensures forall k :: AddedAt(byName, byName, service, 0, k)
  {
  }

  function RuleIf(service: Service, j: nat, key: string): seq<RuleIdentity>
    requires j < |service.rules|
  {
    if Canonical(service.rules[j].policyName) == key then [RuleIdentity(service.name, service.rules[j].context)] else []
  }

  lemma OneMoreRule(service: Service, j: nat)
    requires j < |service.rules|
    ensures forall k :: RulesNamed(service, j + 1, k) == RulesNamed(service, j, k) + RuleIf(service, j, k)
  {
    hide Canonical;
  }

  lemma AtUpdated(byName: map<string, seq<RuleIdentity>>, name: string, rules: seq<RuleIdentity>)
    ensures forall k :: At(byName[name := rules], k) == if k == name then rules else At(byName, k)
  {
    forall k ensures At(byName[name := rules], k) == if k == name then rules else At(byName, k) {
      if k in byName && k != name { assert k in byName[name := rules]; }
    }
  }

  lemma NothingShown()
    ensures Shows(Index(map[], map[]), [])
  {
  }

  lemma ShownMore(index: Index, published: seq<Service>, i: nat, byName: map<string, seq<RuleIdentity>>)
    requires i < |published| && Shows(index, published[..i]) && Canonical(published[i].name) != ""
    requires forall k :: AddedAt(index.byName, byName, published[i], |published[i].rules|, k)
    ensures Shows(Index(index.services[Canonical(published[i].name) := published[i].name], byName), published[..i + 1])
  {
    hide Canonical, At, RulesNamed;
    forall k ensures At(byName, k) == if k == "" then At(index.byName, k) else At(index.byName, k) + RulesNamed(published[i], |published[i].rules|, k) {
      assert AddedAt(index.byName, byName, published[i], |published[i].rules|, k);
    }
    PrefixEnds(published, i);
  }

  lemma ShownSame(index: Index, published: seq<Service>, i: nat)
    requires i < |published| && Shows(index, published[..i]) && Canonical(published[i].name) == ""
    ensures Shows(index, published[..i + 1])
  {
    hide Canonical, At, RulesNamed;
    PrefixEnds(published, i);
  }

  lemma PrefixEnds(published: seq<Service>, i: nat)
    requires i < |published|
    ensures var next := published[..i + 1]; |next| == i + 1 && next[i] == published[i] && next[..i] == published[..i]
  {
  }

  // ---------------------------------------------------------------- matching

  function Contexts(names: seq<string>): set<string> {
    set i | 0 <= i < |names| :: Trim(names[i])
  }

  /** The candidates that count for a target. */
  predicate Counts(candidate: RuleIdentity, contexts: set<string>) {
    contexts == {} || candidate.context in contexts
  }

  /** The services found so far, by lower-case name. */
  function Found(candidates: seq<RuleIdentity>, n: nat, contexts: set<string>): map<string, string>
    requires n <= |candidates|
  {
    if n == 0 then map[]
    else
      var before := Found(candidates, n - 1, contexts);
      var c := candidates[n - 1];
      if Counts(c, contexts) then before[Lower(c.service) := c.service] else before
  }

  /** The service of a device policy, if its name points at one only. */
  function Match(index: Index, targetContexts: seq<string>, policyName: string): string {
    var candidates := At(index.byName, Canonical(policyName));
    var found := Found(candidates, |candidates|, Contexts(targetContexts));
    if |found| != 1 then "" else Only(found)
  }

  function Only(found: map<string, string>): string
    requires |found| == 1
  {
    OnlyOne(found);
    var k :| k in found;
    found[k]
  }

  lemma OnlyOne(found: map<string, string>)
    requires |found| == 1
    ensures forall a, b :: a in found && b in found ==> a == b
    ensures exists k :: k in found
  {
    assert |found.Keys| == 1;
    forall a, b | a in found && b in found ensures a == b {
      if a != b { assert {a, b} <= found.Keys && |{a, b}| == 2; SmallerSet({a, b}, found.Keys); }
    }
    assert found.Keys != {};
    assert exists k :: k in found.Keys;
  }

  /** The target has the context, or no contexts at all. */
  ghost predicate InContext(names: seq<string>, context: string) {
    names == [] || exists n :: 0 <= n < |names| && Trim(names[n]) == context
  }

  lemma CountsIs(names: seq<string>, c: RuleIdentity)
    ensures Counts(c, Contexts(names)) <==> InContext(names, c.context)
  {
    if names != [] { assert Trim(names[0]) in Contexts(names); }
  }

  /** A rule of a published service with the policy's name, in a context that counts. */
  ghost predicate Points(published: seq<Service>, names: seq<string>, key: string, i: nat, j: nat) {
    && i < |published| && j < |published[i].rules| && key != "" && Lower(Trim(published[i].name)) != ""
    && Lower(Trim(published[i].rules[j].policyName)) == key && InContext(names, published[i].rules[j].context)
  }

  lemma {:induction false} RulesNamedAre(service: Service, n: nat, key: string, c: RuleIdentity)
    requires n <= |service.rules|
    ensures c in RulesNamed(service, n, key) <==>
      exists j: nat :: j < n && Canonical(service.rules[j].policyName) == key && c == RuleIdentity(service.name, service.rules[j].context)
  {
    hide Canonical;
    if n > 0 { RulesNamedAre(service, n - 1, key, c); }
  }

  /** A rule of the published services stands behind the candidate. */
  ghost predicate Behind(published: seq<Service>, key: string, c: RuleIdentity, i: nat, j: nat) {
    && i < |published| && j < |published[i].rules| && key != "" && Canonical(published[i].name) != ""
    && Canonical(published[i].rules[j].policyName) == key && c == RuleIdentity(published[i].name, published[i].rules[j].context)
  }

  lemma {:induction false} CandidatesAre(published: seq<Service>, key: string, c: RuleIdentity)
    ensures c in Candidates(published, key) <==> exists i: nat, j: nat :: Behind(published, key, c, i, j)
  {
    hide Canonical, RulesNamed;
    if published != [] && key != "" {
      var m := |published| - 1;
      var init, last := published[..m], published[m];
      CandidatesAre(init, key, c);
      RulesNamedAre(last, |last.rules|, key, c);
      if c in Candidates(init, key) {
        var i: nat, j: nat :| Behind(init, key, c, i, j);
        assert Behind(published, key, c, i, j);
      } else if c in Candidates(published, key) {
        var j: nat :| j < |last.rules| && Canonical(last.rules[j].policyName) == key && c == RuleIdentity(last.name, last.rules[j].context);
        assert Behind(published, key, c, m, j);
      }
      if i: nat, j: nat :| Behind(published, key, c, i, j) {
        if i < m { assert Behind(init, key, c, i, j); }
      }
    }
  }

  lemma {:induction false} FoundAre(candidates: seq<RuleIdentity>, n: nat, contexts: set<string>)
    requires n <= |candidates|
    ensures forall k :: k in Found(candidates, n, contexts) ==>
      exists m :: 0 <= m < n && Counts(candidates[m], contexts) && candidates[m].service == Found(candidates, n, contexts)[k] && Lower(candidates[m].service) == k
    ensures forall m :: 0 <= m < n && Counts(candidates[m], contexts) ==> Lower(candidates[m].service) in Found(candidates, n, contexts)
  {
    hide Counts, Lower;
    if n > 0 { FoundAre(candidates, n - 1, contexts); }
  }

  /** Two rules point at services that differ in more than case. */
  ghost predicate Torn(published: seq<Service>, names: seq<string>, key: string) {
    exists i: nat, j: nat, k: nat, l: nat :: Points(published, names, key, i, j) && Points(published, names, key, k, l)
      && Lower(published[i].name) != Lower(published[k].name)
  }

  ghost predicate Silent(published: seq<Service>, names: seq<string>, key: string) {
    forall i: nat, j: nat :: !Points(published, names, key, i, j)
  }

  /** A policy is matched exactly if its name, compared without case and surrounding
      space, points at one service; the match is that service. */
  lemma MatchMeans(index: Index, published: seq<Service>, names: seq<string>, policyName: string)
    requires Shows(index, published)
    ensures var key, s := Lower(Trim(policyName)), Match(index, names, policyName);
      && (s == "" <==> Silent(published, names, key) || Torn(published, names, key))
      && (s != "" ==> exists i: nat, j: nat :: Points(published, names, key, i, j) && published[i].name == s)
      && (s != "" ==> forall i: nat, j: nat :: Points(published, names, key, i, j) ==> Lower(published[i].name) == Lower(s))
  {
    hide Contexts, Counts, Candidates, Lower, Trim, InContext;
    var contexts, key := Contexts(names), Canonical(policyName);
    var candidates := At(index.byName, key);
    assert candidates == Candidates(published, key);
    var found := Found(candidates, |candidates|, contexts);
    FoundAre(candidates, |candidates|, contexts);
    forall c ensures Counts(c, contexts) <==> InContext(names, c.context) { CountsIs(names, c); }
    forall i: nat, j: nat | Points(published, names, key, i, j) ensures Lower(published[i].name) in found {
      var c := RuleIdentity(published[i].name, published[i].rules[j].context);
      assert Behind(published, key, c, i, j);
      CandidatesAre(published, key, c);
    }
    forall k | k in found ensures exists i: nat, j: nat :: Points(published, names, key, i, j) && published[i].name == found[k] && Lower(found[k]) == k {
      var m :| 0 <= m < |candidates| && Counts(candidates[m], contexts) && candidates[m].service == found[k] && Lower(candidates[m].service) == k;
      CandidatesAre(published, key, candidates[m]);
      var i: nat, j: nat :| Behind(published, key, candidates[m], i, j);
      assert Points(published, names, key, i, j);
    }
    MatchFromFound(published, names, key, found);
  }

  lemma NotBlank(published: seq<Service>, names: seq<string>, key: string, i: nat, j: nat)
    requires Points(published, names, key, i, j)
    ensures published[i].name != ""
  {
    hide InContext;
    assert Lower(Trim("")) == "";
  }

  lemma MatchFromFound(published: seq<Service>, names: seq<string>, key: string, found: map<string, string>)
    requires forall i: nat, j: nat :: Points(published, names, key, i, j) ==> Lower(published[i].name) in found
    requires forall k :: k in found ==> exists i: nat, j: nat :: Points(published, names, key, i, j) && published[i].name == found[k] && Lower(found[k]) == k
    ensures var s := if |found| != 1 then "" else Only(found);
      && (s == "" <==> Silent(published, names, key) || Torn(published, names, key))
      && (s != "" ==> exists i: nat, j: nat :: Points(published, names, key, i, j) && published[i].name == s)
      && (s != "" ==> forall i: nat, j: nat :: Points(published, names, key, i, j) ==> Lower(published[i].name) == Lower(s))
  {
    hide InContext, Lower, Trim;
    if |found| == 1 {
      OnlyOne(found);
      var k :| k in found;
      assert Only(found) == found[k];
      var i: nat, j: nat :| i < |published| && Points(published, names, key, i, j) && published[i].name == found[k] && Lower(found[k]) == k;
      NotBlank(published, names, key, i, j);
    } else if found != map[] {
      TwoOf(found);
      var a, b :| a in found && b in found && a != b;
      var i: nat, j: nat :| i < |published| && Points(published, names, key, i, j) && published[i].name == found[a] && Lower(found[a]) == a;
      var k: nat, l: nat :| k < |published| && Points(published, names, key, k, l) && published[k].name == found[b] && Lower(found[b]) == b;
    }
  }

  lemma TwoOf(found: map<string, string>)
    requires found != map[] && |found| != 1
    ensures exists a, b :: a in found && b in found && a != b
  {
    assert |found.Keys| == |found| && found.Keys != {};
    var a :| a in found.Keys;
    assert |{a}| == 1;
    assert found.Keys - {a} != {} by { assert found.Keys != {a}; }
    var b :| b in found.Keys - {a};
  }
}
