/** Binding a reviewed set of commands to the table of a device: what the
    snapshot accepts, and that whatever it accepts is a well-formed plan. */
module DeploymentSnapshots {
  import opened Options
  import opened PolicyTables
  import opened PolicyOrder
  import opened Repositioning
  import opened DeploymentPlans
  import opened Devices

  /** What the runtime validation has established of the commands: the UPSERTs
      are a chain that ends at the anchor, no name is used twice, and every
      payload and every approved base state is that of an enabled policy. */
  ghost predicate CommandsOk(commands: seq<Command>, ups: nat, anchorName: string, approved: map<string, Rule>, ids: seq<MKey>) {
    && ups <= |commands| == |ids| && (ups > 0 ==> anchorName != "")
    && (forall i: nat :: CommandOk(commands, ups, anchorName, i))
    && (forall i: nat, j: nat :: DifferentCommands(commands, ids, i, j))
    && (forall name :: name in approved ==> approved[name].enabled)
  }

  predicate CommandOk(commands: seq<Command>, ups: nat, anchorName: string, i: nat) {
    i < |commands| ==>
      && commands[i].name != "" && commands[i].name != anchorName && commands[i].payload.enabled
      && (commands[i].operation == Upsert <==> i < ups)
      && (i < ups ==> commands[i].insertBefore == if i == 0 then anchorName else commands[i - 1].name)
  }

  predicate DifferentCommands(commands: seq<Command>, ids: seq<MKey>, i: nat, j: nat) {
    i < |commands| == |ids| && j < |commands| && i != j ==> commands[i].name != commands[j].name && ids[i] != ids[j]
  }

  /** The keys the device will hand out are not in use. */
  predicate FreshIds(t: Table, ids: seq<MKey>) {
    forall i :: 0 <= i < |ids| ==> ids[i] !in t.rows
  }

  // ---------------------------------------------------------------- what may be taken

  /** A live policy is as reviewed already, or an UPSERT finds it as approved and does
      not change the match of a DENY in place. */
  ghost predicate MayTake(live: Rule, c: Command, approved: map<string, Rule>) {
    || live == c.payload
    || (c.operation == Upsert && c.name in approved && live == approved[c.name]
        && !(live.action == Deny && c.payload.action == Deny && live.packets != c.payload.packets))
  }

  ghost predicate Allowed(t: Table, c: Command, approved: map<string, Rule>) {
    AtMostOnce(t, c.name) && forall k :: Bears(t, k, c.name) ==> MayTake(t.rows[k].rule, c, approved)
  }

  /** The snapshot shows the live policy of the command, its content and its neighbours. */
  ghost predicate TakenFrom(t: Table, c: Command, s: Snapshot) {
    && s.command == c && (s.existed <==> exists k :: Bears(t, k, c.name))
    && (if s.existed then
          && Bears(t, s.mkey, c.name) && s.restore == t.rows[s.mkey].rule
          && (forall y: MKey :: s.beforeMKey == Some(y) <==> Linked(t.order, s.mkey, y))
          && (forall y: MKey :: s.afterMKey == Some(y) <==> Linked(t.order, y, s.mkey))
        else
          s.mkey == 0 && s.restore == c.payload && s.beforeMKey == None && s.afterMKey == None)
  }

  /** A plan that shows the table to these commands. Its UPSERTs know the key of the
      policy they go before where that policy exists. */
  ghost predicate Shows(t: Table, commands: seq<Command>, ups: nat, anchorName: string, plan: Plan) {
    && plan.base == t && plan.ups == ups && |plan.snaps| == |commands| == |plan.ids|
    && (if ups > 0 then Bears(t, plan.anchor, anchorName) && AtMostOnce(t, anchorName) else plan.anchor == 0)
    && (forall i :: 0 <= i < |commands| ==> TakenFrom(t, commands[i], plan.snaps[i]))
    && (forall i :: 0 <= i < |commands| ==> GoesBefore(plan, i))
  }

  ghost predicate GoesBefore(plan: Plan, i: nat)
    requires i < |plan.snaps|
  {
    var bound := plan.snaps[i].insertBeforeMKey;
    if i >= plan.ups || (i > 0 && !plan.snaps[i - 1].existed) then bound == None
    else bound == Some(if i == 0 then plan.anchor else plan.snaps[i - 1].mkey)
  }

  /** One command of the snapshot. Drift, an unowned policy of the same name and
      an unsafe DENY change are refused. */
  function SnapshotOf(t: Table, command: Command, approved: map<string, Rule>): Option<Snapshot> {
    match Find(t, command.name)
    case Ambiguous => None
    case Missing => Some(Snapshot(command, false, 0, command.payload, None, None, None))
    case Found(k) =>
      if k !in t.rows then None
      else
        var live := t.rows[k].rule;
        var s := Snapshot(command, true, k, live, Below(t.order, k), AboveOf(t.order, k), None);
        if live == command.payload then Some(s)
        else if command.operation == Delete || command.name !in approved || approved[command.name] != live then None
        else if UnsafeDenyMatchChange(s) then None
        else Some(s)
  }

  /** The key of the successor that command `i` names, if the snapshot sees it. */
  function BoundSuccessor(snaps: seq<Snapshot>, anchor: MKey, ups: nat, i: nat): Option<MKey>
    requires i < |snaps|
  {
    if i >= ups then None
    else if i == 0 then Some(anchor)
    else if snaps[i - 1].existed then Some(snaps[i - 1].mkey) else None
  }

  predicate SnapshotAgrees(t: Table, commands: seq<Command>, approved: map<string, Rule>, snaps: seq<Snapshot>, i: nat) {
    i < |snaps| <= |commands| ==>
      SnapshotOf(t, commands[i], approved) == Some(snaps[i].(insertBeforeMKey := None))
  }

  /** The plan made of accepted snapshots. */
  function PlanOf(t: Table, snaps: seq<Snapshot>, ids: seq<MKey>, ups: nat, anchor: MKey): Plan {
    Plan(t, snaps, ids, ups, anchor)
  }

  // ---------------------------------------------------------------- order

  predicate PairAt(s: seq<MKey>, j: nat, first: MKey, second: MKey) {
    j + 1 < |s| && s[j] == first && s[j + 1] == second
  }

  predicate HasPair(s: seq<MKey>, first: MKey, second: MKey) {
    exists j: nat :: j < |s| && PairAt(s, j, first, second)
  }

  lemma HasPairAppend(s: seq<MKey>, k: MKey, first: MKey, second: MKey)
    ensures HasPair(s + [k], first, second)
       <==> HasPair(s, first, second) || (s != [] && s[|s| - 1] == first && k == second)
  {
    if j: nat :| j < |s| && PairAt(s, j, first, second) {
      assert PairAt(s + [k], j, first, second);
    }
    if s != [] && s[|s| - 1] == first && k == second {
      assert PairAt(s + [k], |s| - 1, first, second);
    }
    if j: nat :| j < |s + [k]| && PairAt(s + [k], j, first, second) {
      assert j + 1 < |s| ==> PairAt(s, j, first, second);
    }
  }

  lemma PairIsLink(view: seq<MKey>, first: MKey, second: MKey)
    requires Distinct(view)
    ensures HasPair(view, first, second) <==> Linked(view, first, second)
  {
    if j: nat :| j < |view| && PairAt(view, j, first, second) {
      PosIs(view, j);
      PosIs(view, j + 1);
    }
    if Linked(view, first, second) {
      assert PairAt(view, Pos(view, first), first, second);
    }
  }

  lemma OnlyNone(keep: set<MKey>)
    ensures Only([], keep) == []
  {
  }

  /** Whether `second` directly follows `first` once the deleted policies are
      left out of the listing. */
  method AdjacentAfterDeletes(order: seq<MKey>, gone: set<MKey>, first: MKey, second: MKey) returns (adjacent: bool)
    requires Distinct(order)
    ensures adjacent <==> Linked(View(order, gone), first, second)
  {
    hide Only, HasPair, Pos;
    var previous: Option<MKey> := None;
    adjacent := false;
    ghost var keep := Elements(order) - gone;
    var i := 0;
    assert order[..0] == [];
    OnlyNone(keep);
    NoPairYet(first, second);
    while i < |order|
      invariant 0 <= i <= |order|
      invariant previous == LastOf(Only(order[..i], keep))
      invariant adjacent <==> HasPair(Only(order[..i], keep), first, second)
    {
      OneMore(order, i, keep, first, second);
      assert order[i] in keep <==> order[i] !in gone;
      if order[i] !in gone {
        if previous == Some(first) && order[i] == second { adjacent := true; }
        previous := Some(order[i]);
      }
      i := i + 1;
    }
    assert order[..i] == order;
    OnlyFacts(order, keep);
    PairIsLink(View(order, gone), first, second);
  }

  function LastOf(s: seq<MKey>): Option<MKey> {
    if s == [] then None else Some(s[|s| - 1])
  }

  lemma NoPairYet(first: MKey, second: MKey)
    ensures !HasPair([], first, second)
  {
  }

  lemma OneMore(order: seq<MKey>, i: nat, keep: set<MKey>, first: MKey, second: MKey)
    requires i < |order|
    ensures var seen, more := Only(order[..i], keep), Only(order[..i + 1], keep);
      && (order[i] in keep ==> LastOf(more) == Some(order[i]))
      && (order[i] in keep ==>
            (HasPair(more, first, second) <==> HasPair(seen, first, second) || (LastOf(seen) == Some(first) && order[i] == second)))
      && (order[i] !in keep ==> more == seen)
  {
    hide Only, HasPair;
    assert order[..i + 1] == order[..i] + [order[i]];
    OnlyAppend(order[..i], order[i], keep);
    HasPairAppend(Only(order[..i], keep), order[i], first, second);
  }

  // ---------------------------------------------------------------- the snapshot

  /** Everything a snapshot must satisfy to be accepted. */
  ghost predicate Acceptable(t: Table, commands: seq<Command>, ups: nat, anchorName: string,
                             approved: map<string, Rule>, plan: Plan) {
    && (if ups > 0 then Find(t, anchorName) == Found(plan.anchor) else plan.anchor == 0)
    && plan.base == t && plan.ups == ups && |plan.snaps| == |commands| == |plan.ids|
    && (forall i: nat :: SnapshotAgrees(t, commands, approved, plan.snaps, i))
    && (forall i: nat :: i < |plan.snaps| ==> plan.snaps[i].insertBeforeMKey == BoundSuccessor(plan.snaps, plan.anchor, ups, i))
    && BlockInOrder(plan, t.order, 0)
  }

  lemma FoundIsThere(t: Table, name: string, k: MKey)
    requires Find(t, name) == Found(k)
    ensures k in t.rows && t.rows[k].name == name
  {
    MatchesAreThere(t.order, t.rows, name, 0);
  }

  lemma {:induction false} MatchesAreThere(order: seq<MKey>, rows: map<MKey, Row>, name: string, i: nat)
    requires i < |Matches(order, rows, name)|
    ensures Matches(order, rows, name)[i] in rows && rows[Matches(order, rows, name)[i]].name == name
    ensures Matches(order, rows, name)[i] in order
  {
    if order[0] in rows && rows[order[0]].name == name {
      if i > 0 { MatchesAreThere(order[1..], rows, name, i - 1); }
    } else {
      MatchesAreThere(order[1..], rows, name, i);
    }
  }

  lemma MissingIsNowhere(t: Table, name: string, k: MKey)
    requires EachOnce(t) && Find(t, name) == Missing && k in t.rows
    ensures t.rows[k].name != name
  {
    assert k in Elements(t.order);
    if t.rows[k].name == name { HasMatch(t.order, t.rows, k); }
  }

  lemma {:induction false} HasMatch(order: seq<MKey>, rows: map<MKey, Row>, k: MKey)
    requires k in order && k in rows
    ensures Matches(order, rows, rows[k].name) != []
  {
    if order[0] != k { HasMatch(order[1..], rows, k); }
  }

  /** Whatever the snapshot accepts is a well-formed plan. */
  lemma AcceptedIsWellFormed(t: Table, commands: seq<Command>, ups: nat, anchorName: string,
                             approved: map<string, Rule>, plan: Plan)
    requires TableOk(t) && CommandsOk(commands, ups, anchorName, approved, plan.ids) && FreshIds(t, plan.ids)
    requires Acceptable(t, commands, ups, anchorName, approved, plan)
    ensures PlanOk(plan)
  {
    if ups > 0 { FoundIsThere(t, anchorName, plan.anchor); }
    forall i: nat ensures SnapshotOk(plan, i) && NotTheAnchor(plan, i) && Chained(plan, i) {
      if i < |commands| {
        AcceptedCommand(t, commands, ups, anchorName, approved, plan, i);
        if 0 < i { AcceptedCommand(t, commands, ups, anchorName, approved, plan, i - 1); }
      }
    }
    forall i: nat, j: nat ensures CommandsApart(plan, i, j) {
      if i < |commands| && j < |commands| && i != j {
        assert SnapshotAgrees(t, commands, approved, plan.snaps, i) && SnapshotAgrees(t, commands, approved, plan.snaps, j);
        assert DifferentCommands(commands, plan.ids, i, j);
      }
    }
  }

  lemma AcceptedCommand(t: Table, commands: seq<Command>, ups: nat, anchorName: string,
                        approved: map<string, Rule>, plan: Plan, i: nat)
    requires EachOnce(t) && CommandsOk(commands, ups, anchorName, approved, plan.ids) && FreshIds(t, plan.ids)
    requires Acceptable(t, commands, ups, anchorName, approved, plan) && i < |commands|
    ensures SnapshotOk(plan, i) && NotTheAnchor(plan, i) && plan.snaps[i].command == commands[i]
    ensures plan.snaps[i].insertBeforeMKey == BoundSuccessor(plan.snaps, plan.anchor, ups, i)
    ensures CommandOk(commands, ups, anchorName, i)
  {
    hide Find, Below, AboveOf;
    assert SnapshotAgrees(t, commands, approved, plan.snaps, i) && CommandOk(commands, ups, anchorName, i);
    match Find(t, commands[i].name)
    case Ambiguous =>
    case Missing =>
      forall k | k in t.rows ensures t.rows[k].name != commands[i].name { MissingIsNowhere(t, commands[i].name, k); }
    case Found(k) =>
      FoundIsThere(t, commands[i].name, k);
      if ups > 0 { FoundIsThere(t, anchorName, plan.anchor); }
  }

  // ---------------------------------------------------------------- single commands

  /** What one command of a snapshot stands for. */
  lemma SnapshotIs(t: Table, c: Command, approved: map<string, Rule>, s: Snapshot)
    requires EachOnce(t)
    ensures SnapshotOf(t, c, approved) == Some(s) <==> Allowed(t, c, approved) && TakenFrom(t, c, s) && s.insertBeforeMKey == None
  {
    hide Find, Below, AboveOf, Linked;
    FindIs(t, c.name);
    match Find(t, c.name)
    case Missing =>
    case Ambiguous =>
    case Found(k) =>
      InElements(t.order);
      assert k in Elements(t.order);
      NeighboursAre(t.order, k);
      if TakenFrom(t, c, s) {
        assert s.mkey == k;
        SameNeighbours(t.order, k, s.beforeMKey, s.afterMKey);
      }
  }

  lemma SameNeighbours(order: seq<MKey>, k: MKey, below: Option<MKey>, above: Option<MKey>)
    requires Distinct(order) && k in order
    requires forall y: MKey :: below == Some(y) <==> Linked(order, k, y)
    requires forall y: MKey :: above == Some(y) <==> Linked(order, y, k)
    ensures below == Below(order, k) && above == AboveOf(order, k)
  {
    hide Linked, Below, AboveOf;
    NeighboursAre(order, k);
    if below.Some? { assert Linked(order, k, below.value); }
    if above.Some? { assert Linked(order, above.value, k); }
    if Below(order, k).Some? { assert Linked(order, k, Below(order, k).value); }
    if AboveOf(order, k).Some? { assert Linked(order, AboveOf(order, k).value, k); }
  }

  lemma SnapshotRefused(t: Table, c: Command, approved: map<string, Rule>)
    requires EachOnce(t)
    ensures SnapshotOf(t, c, approved) == None <==> !Allowed(t, c, approved)
  {
    hide Find, Below, AboveOf, Linked;
    FindIs(t, c.name);
    match Find(t, c.name)
    case Missing =>
    case Ambiguous =>
    case Found(k) =>
  }

  /** Accepted is what shows the table, is allowed, and stands in order. */
  lemma AcceptableIs(t: Table, commands: seq<Command>, ups: nat, anchorName: string, approved: map<string, Rule>, plan: Plan)
    requires EachOnce(t) && ups <= |commands|
    ensures Acceptable(t, commands, ups, anchorName, approved, plan) <==>
      Shows(t, commands, ups, anchorName, plan) && AllAllowed(t, commands, approved) && BlockInOrder(plan, t.order, 0)
  {
    hide Find, TakenFrom, Allowed, SnapshotOf, BlockInOrder;
    FindIs(t, anchorName);
    if plan.base == t && plan.ups == ups && |plan.snaps| == |commands| == |plan.ids| {
      forall i: nat | i < |commands|
        ensures SnapshotAgrees(t, commands, approved, plan.snaps, i) <==> Allowed(t, commands[i], approved) && TakenFrom(t, commands[i], plan.snaps[i])
        ensures GoesBefore(plan, i) <==> plan.snaps[i].insertBeforeMKey == BoundSuccessor(plan.snaps, plan.anchor, ups, i)
      {
        SnapshotIs(t, commands[i], approved, plan.snaps[i].(insertBeforeMKey := None));
        BoundAside(t, commands[i], plan.snaps[i]);
      }
    }
  }

  lemma BoundAside(t: Table, c: Command, s: Snapshot)
    ensures TakenFrom(t, c, s) <==> TakenFrom(t, c, s.(insertBeforeMKey := None))
  {
  }

  ghost predicate AllAllowed(t: Table, commands: seq<Command>, approved: map<string, Rule>) {
    forall i :: 0 <= i < |commands| ==> Allowed(t, commands[i], approved)
  }

  /** Takes the snapshot, or refuses the deployment: a policy that is not the approved
      one is never taken. */
  method TakeSnapshot(t: Table, commands: seq<Command>, ups: nat, anchorName: string,
                      approved: map<string, Rule>, ids: seq<MKey>) returns (plan: Option<Plan>)
    requires EachOnce(t) && CommandsOk(commands, ups, anchorName, approved, ids) && FreshIds(t, ids)
    ensures plan.Some? <==> (AllAllowed(t, commands, approved)
      && exists any: Plan :: any.ids == ids && Shows(t, commands, ups, anchorName, any) && BlockInOrder(any, t.order, 0))
    ensures plan.Some? ==> plan.value.ids == ids && Shows(t, commands, ups, anchorName, plan.value) && BlockInOrder(plan.value, t.order, 0)
    ensures plan.Some? && TableOk(t) ==> PlanOk(plan.value)
  {
    hide Find, SnapshotOf, Shows, AllAllowed, BlockInOrder, CommandsOk;
    plan := None;
    CommandCounts(commands, ups, anchorName, approved, ids);
    forall any: Plan ensures Acceptable(t, commands, ups, anchorName, approved, any) <==>
      Shows(t, commands, ups, anchorName, any) && AllAllowed(t, commands, approved) && BlockInOrder(any, t.order, 0)
    {
      AcceptableIs(t, commands, ups, anchorName, approved, any);
    }
    hide Acceptable;
    var found := Find(t, anchorName);
    var anchor := if ups > 0 && found.Found? then found.k else 0;
    var snaps, refused := SnapshotCommands(t, commands, ups, anchor, approved);
    if (ups == 0 || found.Found?) && !refused {
      var pl := PlanOf(t, snaps, ids, ups, anchor);
      var inOrder := StandsInOrder(pl);
      AcceptedInOrder(t, commands, ups, anchorName, approved, pl);
      OneAcceptable(t, commands, ups, anchorName, approved, pl);
      if inOrder {
        if TableOk(t) { AcceptedIsWellFormed(t, commands, ups, anchorName, approved, pl); }
        plan := Some(pl);
      }
    } else {
      RefusedIsUnacceptable(t, commands, ups, anchorName, approved);
    }
  }

  lemma CommandCounts(commands: seq<Command>, ups: nat, anchorName: string, approved: map<string, Rule>, ids: seq<MKey>)
    requires CommandsOk(commands, ups, anchorName, approved, ids)
    ensures ups <= |commands| == |ids|
  {
  }

  lemma AcceptedInOrder(t: Table, commands: seq<Command>, ups: nat, anchorName: string, approved: map<string, Rule>, pl: Plan)
    requires (if ups > 0 then Find(t, anchorName) == Found(pl.anchor) else pl.anchor == 0) && pl.base == t && pl.ups == ups && |pl.snaps| == |commands| == |pl.ids|
    requires forall l: nat :: SnapshotAgrees(t, commands, approved, pl.snaps, l)
    requires forall l: nat :: l < |pl.snaps| ==> pl.snaps[l].insertBeforeMKey == BoundSuccessor(pl.snaps, pl.anchor, ups, l)
    ensures Acceptable(t, commands, ups, anchorName, approved, pl) <==> BlockInOrder(pl, t.order, 0)
  {
  }

  /** Records every command, until one is refused. */
  method SnapshotCommands(t: Table, commands: seq<Command>, ups: nat, anchor: MKey, approved: map<string, Rule>)
    returns (snaps: seq<Snapshot>, refused: bool)
    requires EachOnce(t)
    ensures !refused <==> AllAllowed(t, commands, approved)
    ensures refused <==> exists l :: 0 <= l < |commands| && SnapshotOf(t, commands[l], approved) == None
    ensures !refused ==> |snaps| == |commands| && forall l :: 0 <= l < |commands| ==> TakenFrom(t, commands[l], snaps[l])
    ensures !refused ==> forall l: nat :: SnapshotAgrees(t, commands, approved, snaps, l)
    ensures !refused ==> forall l: nat :: l < |snaps| ==> snaps[l].insertBeforeMKey == BoundSuccessor(snaps, anchor, ups, l)
  {
    hide SnapshotOf, TakenFrom, Allowed, AllAllowed, EachOnce;
    snaps, refused := [], false;
    var i := 0;
    while i < |commands| && !refused
      invariant 0 <= i <= |commands| && (!refused ==> |snaps| == i)
      invariant !refused ==> forall l: nat :: SnapshotAgrees(t, commands, approved, snaps, l)
      invariant !refused ==> forall l: nat :: l < |snaps| ==> snaps[l].insertBeforeMKey == BoundSuccessor(snaps, anchor, ups, l)
      invariant refused ==> exists l :: 0 <= l < |commands| && SnapshotOf(t, commands[l], approved) == None
      invariant !refused ==> forall l :: 0 <= l < i ==> SnapshotOf(t, commands[l], approved).Some?
      decreases |commands| - i, if refused then 0 else 1
    {
      var taken := SnapshotOf(t, commands[i], approved);
      if taken.None? {
        refused := true;
      } else {
        ghost var before := snaps;
        var bound := if i >= ups then None else if i == 0 then Some(anchor)
                     else if snaps[i - 1].existed then Some(snaps[i - 1].mkey) else None;
        TakenUnbound(t, commands[i], approved);
        snaps := snaps + [taken.value.(insertBeforeMKey := bound)];
        forall l: nat ensures SnapshotAgrees(t, commands, approved, snaps, l) {
          assert SnapshotAgrees(t, commands, approved, before, l);
        }
        i := i + 1;
      }
    }
    TakenAre(t, commands, approved, snaps, refused);
  }

  lemma TakenAre(t: Table, commands: seq<Command>, approved: map<string, Rule>, snaps: seq<Snapshot>, refused: bool)
    requires EachOnce(t) && (refused <==> exists l :: 0 <= l < |commands| && SnapshotOf(t, commands[l], approved) == None)
    requires !refused ==> |snaps| == |commands| && forall l: nat :: SnapshotAgrees(t, commands, approved, snaps, l)
    ensures !refused <==> AllAllowed(t, commands, approved)
    ensures !refused ==> forall l :: 0 <= l < |commands| ==> TakenFrom(t, commands[l], snaps[l])
  {
    hide SnapshotOf, TakenFrom, Allowed, EachOnce;
    forall l | 0 <= l < |commands| ensures SnapshotOf(t, commands[l], approved) == None <==> !Allowed(t, commands[l], approved) {
      SnapshotRefused(t, commands[l], approved);
    }
    if !refused {
      forall l | 0 <= l < |commands| ensures TakenFrom(t, commands[l], snaps[l]) {
        assert SnapshotAgrees(t, commands, approved, snaps, l);
        SnapshotIs(t, commands[l], approved, snaps[l].(insertBeforeMKey := None));
        BoundAside(t, commands[l], snaps[l]);
      }
    }
  }

  /** Whether every existing policy stands directly before its effective successor. */
  method StandsInOrder(pl: Plan) returns (inOrder: bool)
    requires |pl.snaps| == |pl.ids| && pl.ups <= |pl.snaps| && Distinct(pl.base.order)
    ensures inOrder <==> BlockInOrder(pl, pl.base.order, 0)
  {
    hide View, Only, NextPresent, Linked;
    var n := 0;
    inOrder := true;
    while n < pl.ups
      invariant 0 <= n <= pl.ups
      invariant inOrder <==> forall l: nat :: l < n ==> InReviewedOrder(pl, View(pl.base.order, DeletedKeys(pl)), l, 0)
    {
      if pl.snaps[n].existed {
        var adjacent := AdjacentAfterDeletes(pl.base.order, DeletedKeys(pl), pl.snaps[n].mkey, NextPresent(pl, n, 0));
        inOrder := inOrder && adjacent;
      }
      assert InReviewedOrder(pl, View(pl.base.order, DeletedKeys(pl)), n, 0) || !inOrder;
      n := n + 1;
    }
  }

  lemma TakenUnbound(t: Table, command: Command, approved: map<string, Rule>)
    ensures SnapshotOf(t, command, approved).Some? ==> SnapshotOf(t, command, approved).value.insertBeforeMKey == None
  {
  }

  lemma RefusedIsUnacceptable(t: Table, commands: seq<Command>, ups: nat, anchorName: string, approved: map<string, Rule>)
    requires (ups > 0 && !Find(t, anchorName).Found?) || exists l :: 0 <= l < |commands| && SnapshotOf(t, commands[l], approved) == None
    ensures forall any: Plan :: !Acceptable(t, commands, ups, anchorName, approved, any)
  {
    forall any: Plan ensures !Acceptable(t, commands, ups, anchorName, approved, any) {
      if Acceptable(t, commands, ups, anchorName, approved, any) {
        forall l: nat | l < |commands| ensures SnapshotOf(t, commands[l], approved) != None {
          assert SnapshotAgrees(t, commands, approved, any.snaps, l);
        }
      }
    }
  }

  /** Nothing but the order of the table is left to decide once every command was taken. */
  lemma OneAcceptable(t: Table, commands: seq<Command>, ups: nat, anchorName: string, approved: map<string, Rule>, pl: Plan)
    requires (if ups > 0 then Find(t, anchorName) == Found(pl.anchor) else pl.anchor == 0) && pl.base == t && pl.ups == ups && |pl.snaps| == |commands| == |pl.ids|
    requires forall l: nat :: SnapshotAgrees(t, commands, approved, pl.snaps, l)
    requires forall l: nat :: l < |pl.snaps| ==> pl.snaps[l].insertBeforeMKey == BoundSuccessor(pl.snaps, pl.anchor, ups, l)
    ensures forall any: Plan :: any.ids == pl.ids && Acceptable(t, commands, ups, anchorName, approved, any) ==> any == pl
  {
    forall any: Plan | any.ids == pl.ids && Acceptable(t, commands, ups, anchorName, approved, any) ensures any == pl {
      forall l | 0 <= l < |commands| ensures any.snaps[l] == pl.snaps[l] {
        SameSnapshot(t, commands, ups, anchorName, approved, pl, any, l);
      }
      assert any.snaps == pl.snaps;
    }
  }

  lemma SameSnapshot(t: Table, commands: seq<Command>, ups: nat, anchorName: string, approved: map<string, Rule>, pl: Plan, any: Plan, l: nat)
    requires (if ups > 0 then Find(t, anchorName) == Found(pl.anchor) else pl.anchor == 0) && |pl.snaps| == |commands|
    requires forall i: nat :: SnapshotAgrees(t, commands, approved, pl.snaps, i)
    requires forall i: nat :: i < |pl.snaps| ==> pl.snaps[i].insertBeforeMKey == BoundSuccessor(pl.snaps, pl.anchor, ups, i)
    requires Acceptable(t, commands, ups, anchorName, approved, any) && l < |commands|
    ensures any.snaps[l] == pl.snaps[l]
  {
    assert SnapshotAgrees(t, commands, approved, pl.snaps, l) && SnapshotAgrees(t, commands, approved, any.snaps, l);
    if l > 0 {
      assert SnapshotAgrees(t, commands, approved, pl.snaps, l - 1) && SnapshotAgrees(t, commands, approved, any.snaps, l - 1);
      assert pl.snaps[l - 1].(insertBeforeMKey := None) == any.snaps[l - 1].(insertBeforeMKey := None);
    }
    assert pl.snaps[l].(insertBeforeMKey := None) == any.snaps[l].(insertBeforeMKey := None);
  }
}
