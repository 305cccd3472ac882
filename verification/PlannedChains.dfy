/** The chains that the planner builds are the chains that the runtime accepts. */
module PlannedChains {
  import opened Texts
  import PC = PolicyChains
  import opened DeploymentPlanner

  /** What the runtime sees of the UPSERTs of one target. */
  function ChainOf(commands: seq<PlanCommand>, name: string): seq<PC.ChainCommand> {
    if commands == [] then []
    else
      var last := commands[|commands| - 1];
      ChainOf(commands[..|commands| - 1], name)
      + if last.target == name && last.verb == Upsert then [PC.ChainCommand(last.name, last.insertBefore, last.sequence)] else []
  }

  function NumberedFrom(commands: seq<PlanCommand>, k: nat): seq<PlanCommand> {
    seq(|commands|, i requires 0 <= i < |commands| => commands[i].(sequence := k + i + 1))
  }

  /** A block of UPSERTs, numbered from `k` on, as the runtime sees it. */
  function Links(block: seq<PlanCommand>, k: nat): seq<PC.ChainCommand> {
    seq(|block|, i requires 0 <= i < |block| => PC.ChainCommand(block[i].name, block[i].insertBefore, k + i + 1))
  }

  lemma {:induction false} ChainOfAppend(a: seq<PlanCommand>, b: seq<PlanCommand>, name: string)
    ensures ChainOf(a + b, name) == ChainOf(a, name) + ChainOf(b, name)
  {
    if b == [] {
      assert a + b == a;
    } else {
      ChainOfAppend(a, b[..|b| - 1], name);
      assert (a + b)[..|a + b| - 1] == a + b[..|b| - 1];
    }
  }

  lemma NumberedAppend(a: seq<PlanCommand>, b: seq<PlanCommand>, k: nat)
    ensures NumberedFrom(a + b, k) == NumberedFrom(a, k) + NumberedFrom(b, k + |a|)
  {
  }

  lemma {:induction false} BlockIsChain(block: seq<PlanCommand>, k: nat, target: string, name: string)
    requires forall i :: 0 <= i < |block| ==> block[i].target == target && block[i].verb == Upsert
    ensures ChainOf(NumberedFrom(block, k), name) == if target == name then Links(block, k) else []
  {
    var n := NumberedFrom(block, k);
    if block != [] {
      BlockIsChain(block[..|block| - 1], k, target, name);
      assert n[..|n| - 1] == NumberedFrom(block[..|block| - 1], k);
      if target == name {
        assert Links(block, k) == Links(block[..|block| - 1], k) + [Links(block, k)[|block| - 1]];
      }
    }
  }

  lemma {:induction false} DeletesAreNoChain(deletes: seq<PlanCommand>, k: nat, name: string)
    requires forall c :: c in deletes ==> c.verb == Delete
    ensures ChainOf(NumberedFrom(deletes, k), name) == []
  {
    var n := NumberedFrom(deletes, k);
    if deletes != [] {
      assert deletes == deletes[..|deletes| - 1] + [deletes[|deletes| - 1]];
      DeletesAreNoChain(deletes[..|deletes| - 1], k, name);
      assert n[..|n| - 1] == NumberedFrom(deletes[..|deletes| - 1], k);
    }
  }

  lemma NoChain(name: string)
    ensures ChainOf([], name) == []
  {
  }

  /** Among the blocks of all targets, that of one target stands as it is. */
  lemma {:induction false} BlocksAsChain(upserts: seq<PlanCommand>, targets: seq<Target>, names: seq<string>, name: string) returns (k: nat)
    requires Rising(names) && forall c :: c in upserts ==> c.verb == Upsert
    ensures ChainOf(NumberedFrom(Blocks(upserts, targets, names), 0), name)
         == if name in names then Links(BottomUp(upserts, targets, name), k) else []
  {
    hide BottomUp, Links, ChainOf, TextLess;
    k := 0;
    if names == [] {
      assert NumberedFrom([], 0) == [];
      NoChain(name);
    } else {
      var init, last := names[..|names| - 1], names[|names| - 1];
      assert names == init + [last];
      var a := Blocks(upserts, targets, init);
      var before := BlocksAsChain(upserts, targets, init, name);
      OneMoreBlock(upserts, targets, a, last, name);
      if name in init {
        RisingApart(names, name);
        k := before;
      } else {
        k := |a|;
      }
    }
  }

  lemma RisingApart(names: seq<string>, name: string)
    requires Rising(names) && names != [] && name in names[..|names| - 1]
    ensures name != names[|names| - 1]
  {
    var i :| 0 <= i < |names| - 1 && names[i] == name;
    assert TextLess(names[i], names[|names| - 1]);
    TextOrder(name, names[|names| - 1]);
  }

  lemma OneMoreBlock(upserts: seq<PlanCommand>, targets: seq<Target>, a: seq<PlanCommand>, last: string, name: string)
    requires forall c :: c in upserts ==> c.verb == Upsert
    ensures ChainOf(NumberedFrom(a + BottomUp(upserts, targets, last), 0), name)
         == ChainOf(NumberedFrom(a, 0), name) + if last == name then Links(BottomUp(upserts, targets, last), |a|) else []
  {
    hide BottomUp, Links, ChainOf, NumberedFrom;
    var b := BottomUp(upserts, targets, last);
    BottomUpMembers(upserts, targets, last);
    forall i | 0 <= i < |b| ensures b[i].target == last && b[i].verb == Upsert { assert b[i] in b; }
    NumberedAppend(a, b, 0);
    ChainOfAppend(NumberedFrom(a, 0), NumberedFrom(b, |a|), name);
    BlockIsChain(b, |a|, last, name);
  }

  lemma ChainOfPlan(d: Draft, t: Target) returns (k: nat)
    requires PlanMade(d) && t in d.targets
    ensures ChainOf(d.commands, t.name) == Links(BottomUp(d.upserts, d.targets, t.name), k)
  {
    hide BottomUp, ContextsOf, ForContexts, Links, ChainOf, Blocks, On, TargetNames, DeletesSorted;
    var names := TargetNames(d.upserts);
    VerbsApart(d);
    TargetNamesRise(d.upserts);
    DeletesSortedMembers(d.deletes);
    k := BlocksAsChain(d.upserts, d.targets, names, t.name);
    OrderedAsChain(d, t.name);
    if t.name !in names { NotListed(d.upserts, d.targets, t.name, k); }
  }

  lemma OrderedAsChain(d: Draft, name: string)
    requires d.commands == Ordered(d.upserts, d.deletes, d.targets) && forall c :: c in d.deletes ==> c.verb == Delete
    ensures ChainOf(d.commands, name) == ChainOf(NumberedFrom(Blocks(d.upserts, d.targets, TargetNames(d.upserts)), 0), name)
  {
    hide BottomUp, Links, ChainOf, Blocks, On, TargetNames, DeletesSorted;
    var a, b := Blocks(d.upserts, d.targets, TargetNames(d.upserts)), DeletesSorted(d.deletes);
    DeletesSortedMembers(d.deletes);
    assert d.commands == NumberedFrom(a + b, 0);
    NumberedAppend(a, b, 0);
    ChainOfAppend(NumberedFrom(a, 0), NumberedFrom(b, |a|), name);
    DeletesAreNoChain(b, |a|, name);
  }

  lemma NotListed(upserts: seq<PlanCommand>, targets: seq<Target>, name: string, k: nat)
    requires name !in TargetNames(upserts)
    ensures Links(BottomUp(upserts, targets, name), k) == []
  {
    if On(upserts, name) != [] { IsListed(upserts, name); }
  }

  lemma IsListed(upserts: seq<PlanCommand>, name: string)
    requires On(upserts, name) != []
    ensures name in TargetNames(upserts)
  {
    OnMembers(upserts, name);
    TargetNamesMembers(upserts);
    assert On(upserts, name)[0] in On(upserts, name);
  }

  /** The reviewed names of a target, top-down. */
  function Reviewed(upserts: seq<PlanCommand>, name: string): seq<string> {
    NamesOf(On(upserts, name))
  }

  function NamesOf(commands: seq<PlanCommand>): (w: seq<string>)
    ensures |w| == |commands|
  {
    seq(|commands|, i requires 0 <= i < |commands| => commands[i].name)
  }

  ghost predicate TrimmedNames(rules: seq<PolicyRule>) {
    forall rule :: rule in rules ==> rule.name != "" && Trim(rule.name) == rule.name
  }

  /** How the runtime sees the `i`th reviewed policy, which stands at `j` from the bottom. */
  lemma LinkOf(d: Draft, t: Target, k: nat, i: nat, j: nat)
    requires PlanMade(d) && t in d.targets && TrimmedNames(d.next) && i < |On(d.upserts, t.name)| && i + j + 1 == |On(d.upserts, t.name)|
    requires ChainOf(d.commands, t.name) == Links(BottomUp(d.upserts, d.targets, t.name), k)
    ensures var w, chain := Reviewed(d.upserts, t.name), ChainOf(d.commands, t.name);
      && |w| == |chain| == |On(d.upserts, t.name)|
      && chain[j] == PC.ChainCommand(w[i], if j == 0 then Trim(t.anchor) else w[i + 1], k + j + 1)
      && w[i] != "" && Trim(w[i]) == w[i] && (Trim(t.anchor) != "" ==> w[i] != Trim(t.anchor))
  {
    hide ContextsOf, ForContexts, Ordered, On, CompatibleUpTo, DeletesSound, DeletesComplete, RemovedAre, ChainOf;
    AnchorOfTarget(d.targets, t);
    var on := On(d.upserts, t.name);
    var c := on[i];
    OnMembers(d.upserts, t.name);
    assert c in on;
    UpsertsOfTarget(d.upserts, d.next, d.targets, d.r, t);
    var rule :| rule in d.next && rule.context in t.contexts && ComesFrom(c, t, rule, d.r);
    assert Deployable(t, rule, d.r);
    BlockAt(on, AnchorOf(d.targets, t.name), k, i, j);
  }

  lemma BlockAt(on: seq<PlanCommand>, anchor: string, k: nat, i: nat, j: nat)
    requires i + j + 1 == |on|
    ensures var links := Links(Reversed(Annotated(on, anchor)), k);
      |links| == |on| && links[j] == PC.ChainCommand(on[i].name, if j == 0 then anchor else on[i + 1].name, k + j + 1)
  {
    assert Annotated(on, anchor)[i] == on[i].(insertBefore := if i + 1 < |on| then on[i + 1].name else anchor);
    assert Reversed(Annotated(on, anchor))[j] == Annotated(on, anchor)[i];
  }

  /** Distinct commands show as distinct links. */
  lemma {:induction false} ChainNamesApart(commands: seq<PlanCommand>, name: string, i: nat, j: nat)
    requires (forall a: nat, b: nat :: OneEach(commands, name, a, b)) && i < j < |ChainOf(commands, name)|
    ensures ChainOf(commands, name)[i].name != ChainOf(commands, name)[j].name
  {
    var init, last := commands[..|commands| - 1], commands[|commands| - 1];
    forall a: nat, b: nat ensures OneEach(init, name, a, b) { assert OneEach(commands, name, a, b); }
    if j < |ChainOf(init, name)| {
      ChainNamesApart(init, name, i, j);
    } else {
      var a := LinkSource(init, name, i);
      assert OneEach(commands, name, a, |commands| - 1);
    }
  }

  lemma {:induction false} LinkSource(commands: seq<PlanCommand>, name: string, i: nat) returns (a: nat)
    requires i < |ChainOf(commands, name)|
    ensures a < |commands| && commands[a].target == name && commands[a].name == ChainOf(commands, name)[i].name
  {
    var init := commands[..|commands| - 1];
    if i < |ChainOf(init, name)| { a := LinkSource(init, name, i); } else { a := |commands| - 1; }
  }

  lemma LinksApart(d: Draft, t: Target, i: nat, j: nat)
    requires PlanMade(d) && t in d.targets && NamesOk(d.next) && NamesOk(d.base)
    ensures PC.NamedApart(ChainOf(d.commands, t.name), i, j)
  {
    hide PlanMade;
    NoNameTwice(d, t);
    if i < j < |ChainOf(d.commands, t.name)| { ChainNamesApart(d.commands, t.name, i, j); }
  }

  /** The chain of an error-free plan is accepted if and only if the target has
      nothing to write or a usable anchor. */
  lemma PlannedChainIsValid(d: Draft, t: Target)
    requires PlanMade(d) && t in d.targets && TrimmedNames(d.next) && NamesOk(d.base)
    ensures PC.ValidChain(t.anchor, ChainOf(d.commands, t.name)) <==> ManagedNames(d.next, t) == {} || PC.AnchorOk(t.anchor)
  {
    hide PlanMade, On, BottomUp, Links, PC.AnchorOk, PC.IsChain, ChainOf;
    var k := ChainOfPlan(d, t);
    var chain := ChainOf(d.commands, t.name);
    ChainLength(d, t, k);
    NothingManaged(d, t);
    forall i: nat, j: nat ensures PC.NamedApart(chain, i, j) { LinksApart(d, t, i, j); }
    if chain != [] && PC.AnchorOk(t.anchor) { ReviewedIsChain(d, t, k); }
  }

  lemma ChainLength(d: Draft, t: Target, k: nat)
    requires ChainOf(d.commands, t.name) == Links(BottomUp(d.upserts, d.targets, t.name), k)
    ensures |ChainOf(d.commands, t.name)| == |On(d.upserts, t.name)| == |Reviewed(d.upserts, t.name)|
  {
  }

  lemma NothingManaged(d: Draft, t: Target)
    requires PlanMade(d) && t in d.targets
    ensures ManagedNames(d.next, t) == {} <==> |On(d.upserts, t.name)| == 0
  {
    hide ContextsOf, ForContexts, Ordered, On, CompatibleUpTo, DeletesSound, DeletesComplete, RemovedAre;
    UpsertsOfTarget(d.upserts, d.next, d.targets, d.r, t);
    OnMembers(d.upserts, t.name);
    if ManagedNames(d.next, t) != {} {
      var name :| name in ManagedNames(d.next, t);
      var rule :| rule in d.next && rule.context in t.contexts && rule.name == name;
      assert Deployable(t, rule, d.r) && ComesFrom(UpsertFor(t, rule, d.r), t, rule, d.r);
      assert UpsertFor(t, rule, d.r) in On(d.upserts, t.name);
    }
    if |On(d.upserts, t.name)| > 0 {
      var c := On(d.upserts, t.name)[0];
      assert c in On(d.upserts, t.name);
      var rule :| rule in d.next && rule.context in t.contexts && ComesFrom(c, t, rule, d.r);
      assert rule.name in ManagedNames(d.next, t);
    }
  }

  lemma ReviewedIsChain(d: Draft, t: Target, k: nat)
    requires PlanMade(d) && t in d.targets && TrimmedNames(d.next) && NamesOk(d.base) && PC.AnchorOk(t.anchor)
    requires |On(d.upserts, t.name)| > 0 && ChainOf(d.commands, t.name) == Links(BottomUp(d.upserts, d.targets, t.name), k)
    requires forall i: nat, j: nat :: PC.NamedApart(ChainOf(d.commands, t.name), i, j)
    ensures var policies := PC.ByName(ChainOf(d.commands, t.name));
      t.anchor !in policies && PC.IsChain(policies, t.anchor, Reviewed(d.upserts, t.name))
  {
    hide PlanMade, On, BottomUp, Links, PC.ByName, ChainOf, Reviewed;
    var chain, w := ChainOf(d.commands, t.name), Reviewed(d.upserts, t.name);
    ChainLength(d, t, k);
    var n, policies := |w|, PC.ByName(chain);
    PC.ByNameFacts(chain);
    forall i: nat ensures PC.LinkedTo(policies, t.anchor, w, i) {
      if i < n { ReviewedLink(d, t, k, i); }
    }
    forall i: nat, j: nat ensures PC.Different(w, i, j) {
      if i < j < n {
        LinkOf(d, t, k, i, n - 1 - i);
        LinkOf(d, t, k, j, n - 1 - j);
        assert PC.NamedApart(chain, n - 1 - j, n - 1 - i);
      }
    }
    forall name ensures name in policies <==> name in PC.Names(w) { ReviewedNames(d, t, k, name); }
    PC.NamesCount(w);
    assert policies.Keys == PC.Names(w);
    if t.anchor in policies { AnchorIsNoPolicy(d, t, k); }
  }

  lemma ReviewedLink(d: Draft, t: Target, k: nat, i: nat)
    requires PlanMade(d) && t in d.targets && TrimmedNames(d.next) && PC.AnchorOk(t.anchor) && i < |On(d.upserts, t.name)|
    requires ChainOf(d.commands, t.name) == Links(BottomUp(d.upserts, d.targets, t.name), k)
    requires forall a: nat, b: nat :: PC.NamedApart(ChainOf(d.commands, t.name), a, b)
    ensures PC.LinkedTo(PC.ByName(ChainOf(d.commands, t.name)), t.anchor, Reviewed(d.upserts, t.name), i)
  {
    hide PlanMade, On, BottomUp, Links, PC.ByName, ChainOf, Reviewed;
    var chain, w := ChainOf(d.commands, t.name), Reviewed(d.upserts, t.name);
    PC.ByNameFacts(chain);
    var j := |On(d.upserts, t.name)| - 1 - i;
    LinkOf(d, t, k, i, j);
    assert chain[j].name == w[i];
    if j > 0 {
      LinkOf(d, t, k, i + 1, j - 1);
      assert chain[j - 1].name == w[i + 1];
    }
  }

  lemma ReviewedNames(d: Draft, t: Target, k: nat, name: string)
    requires PlanMade(d) && t in d.targets && TrimmedNames(d.next)
    requires ChainOf(d.commands, t.name) == Links(BottomUp(d.upserts, d.targets, t.name), k)
    ensures name in PC.ByName(ChainOf(d.commands, t.name)) <==> name in Reviewed(d.upserts, t.name)
  {
    hide PlanMade, On, BottomUp, Links, PC.ByName, ChainOf, Reviewed;
    var chain, w := ChainOf(d.commands, t.name), Reviewed(d.upserts, t.name);
    ChainLength(d, t, k);
    PC.ByNameFacts(chain);
    if name in PC.ByName(chain) {
      var j: nat :| j < |chain| && chain[j].name == name;
      LinkOf(d, t, k, |chain| - 1 - j, j);
    }
    if name in w {
      var i: nat :| i < |w| && w[i] == name;
      LinkOf(d, t, k, i, |chain| - 1 - i);
      assert chain[|chain| - 1 - i].name == name;
    }
  }

  lemma AnchorIsNoPolicy(d: Draft, t: Target, k: nat)
    requires PlanMade(d) && t in d.targets && TrimmedNames(d.next) && PC.AnchorOk(t.anchor)
    requires ChainOf(d.commands, t.name) == Links(BottomUp(d.upserts, d.targets, t.name), k)
    ensures t.anchor !in PC.ByName(ChainOf(d.commands, t.name))
  {
    hide PlanMade, On, BottomUp, Links, PC.ByName, ChainOf, Reviewed;
    ChainLength(d, t, k);
    ReviewedNames(d, t, k, t.anchor);
    forall i: nat | i < |Reviewed(d.upserts, t.name)| ensures Reviewed(d.upserts, t.name)[i] != t.anchor {
      LinkOf(d, t, k, i, |On(d.upserts, t.name)| - 1 - i);
    }
  }
}
