/** What the checks around a write ask of the device, whatever it shows. */
module DeploymentChecks {
  import opened Options
  import opened PolicyTables
  import opened PolicyOrder
  import opened Repositioning
  import opened DeploymentPlans
  import opened DeploymentSteps
  import opened Devices

  // ---------------------------------------------------------------- what may be found

  /** The reviewed successor is there, once, and is still the one the snapshot saw. */
  ghost predicate IsSuccessor(t: Table, s: Snapshot, a: MKey) {
    && Bears(t, a, s.command.insertBefore) && AtMostOnce(t, s.command.insertBefore)
    && (s.insertBeforeMKey.Some? ==> s.insertBeforeMKey.value == a)
  }

  /** The policy stands directly before its reviewed successor. */
  ghost predicate Positioned(t: Table, s: Snapshot, k: MKey) {
    exists a: MKey :: IsSuccessor(t, s, a) && Linked(t.order, k, a)
  }

  /** The one policy with the name of the command, with this content. */
  ghost predicate Holds(t: Table, s: Snapshot, k: MKey, rule: Rule) {
    Bears(t, k, s.command.name) && AtMostOnce(t, s.command.name) && t.rows[k].rule == rule
  }

  ghost predicate Nameless(t: Table, s: Snapshot) {
    forall k: MKey :: !Bears(t, k, s.command.name)
  }

  /** A new policy may be created: nobody has touched the order, the name is free,
      and there is a place for it. */
  ghost predicate MayCreate(t: Table, expected: seq<MKey>, s: Snapshot) {
    && t.order == expected && s.command.operation != Delete && !s.existed && Nameless(t, s)
    && exists a: MKey :: IsSuccessor(t, s, a)
  }

  /** A policy may be overwritten or removed: nobody has touched the order, and the
      policy is the one that was approved. */
  ghost predicate MayReplace(t: Table, expected: seq<MKey>, s: Snapshot, k: MKey) {
    && t.order == expected && s.existed && k == s.mkey
    && if s.command.operation == Delete then Holds(t, s, k, s.command.payload)
       else Holds(t, s, k, s.restore) && s.restore != s.command.payload
  }

  /** Nothing is left to do: the policy is as reviewed already. */
  ghost predicate IsDone(t: Table, expected: seq<MKey>, s: Snapshot) {
    && t.order == expected
    && if s.command.operation == Delete then Nameless(t, s)
       else exists k: MKey :: Holds(t, s, k, s.command.payload) && if s.existed then k == s.mkey else Positioned(t, s, k)
  }

  /** A prepared policy may be enabled: it is the one that was created, is disabled,
      and stands where it should. */
  ghost predicate MayEnable(t: Table, expected: seq<MKey>, s: Snapshot, k: MKey) {
    t.order == expected && Holds(t, s, k, s.command.payload.(enabled := false)) && Positioned(t, s, k)
  }

  /** The command has been carried out. */
  ghost predicate CarriedOut(t: Table, s: Snapshot) {
    if s.command.operation == Delete then Nameless(t, s)
    else exists k: MKey, a: MKey ::
      && Holds(t, s, k, s.command.payload)
      && Bears(t, a, s.command.insertBefore) && AtMostOnce(t, s.command.insertBefore) && Linked(t.order, k, a)
  }

  // ---------------------------------------------------------------- the checks decide it

  lemma ListedIfThere(t: Table, k: MKey, name: string)
    requires EachOnce(t) && Bears(t, k, name)
    ensures k in t.order
  {
    assert k in Elements(t.order);
  }

  lemma SuccessorIs(t: Table, s: Snapshot)
    requires EachOnce(t)
    ensures forall a: MKey :: LiveSuccessor(t, s) == Some(a) <==> IsSuccessor(t, s, a)
  {
    hide Find;
    FindIs(t, s.command.insertBefore);
  }

  lemma PositionedIs(t: Table, s: Snapshot, k: MKey)
    requires EachOnce(t) && k in t.order
    ensures BeforeLiveSuccessor(t, s, k) <==> Positioned(t, s, k)
  {
    hide LiveSuccessor, Below, Linked, IsSuccessor;
    SuccessorIs(t, s);
    NeighboursAre(t.order, k);
    if LiveSuccessor(t, s).Some? { assert IsSuccessor(t, s, LiveSuccessor(t, s).value); }
  }

  /** Revalidation lets a write through exactly if the policy is as it was approved,
      or its name is free; a policy that somebody else has changed is a conflict. */
  lemma RevalidateIs(t: Table, expected: seq<MKey>, s: Snapshot)
    requires EachOnce(t)
    ensures Revalidate(t, expected, s) == Absent <==> MayCreate(t, expected, s)
    ensures forall k: MKey :: Revalidate(t, expected, s) == Present(k) <==> MayReplace(t, expected, s, k)
    ensures Revalidate(t, expected, s) == InSync <==> IsDone(t, expected, s)
  {
    hide Find, LiveSuccessor, BeforeLiveSuccessor, IsSuccessor, Positioned;
    FindIs(t, s.command.name);
    SuccessorIs(t, s);
    if LiveSuccessor(t, s).Some? { assert IsSuccessor(t, s, LiveSuccessor(t, s).value); }
    match Find(t, s.command.name)
    case Found(k) =>
      ListedIfThere(t, k, s.command.name);
      PositionedIs(t, s, k);
      assert forall l: MKey, rule :: Holds(t, s, l, rule) <==> l == k && t.rows[k].rule == rule;
    case Missing =>
    case Ambiguous =>
  }

  lemma CarriedOutIs(t: Table, s: Snapshot)
    requires EachOnce(t)
    ensures CommandInSync(t, s) <==> CarriedOut(t, s)
  {
    hide Find, Below, Linked;
    FindIs(t, s.command.name);
    FindIs(t, s.command.insertBefore);
    match Find(t, s.command.name)
    case Found(k) =>
      ListedIfThere(t, k, s.command.name);
      NeighboursAre(t.order, k);
      assert forall l: MKey, rule :: Holds(t, s, l, rule) <==> l == k && t.rows[k].rule == rule;
    case Missing =>
    case Ambiguous =>
  }

  // ---------------------------------------------------------------- other policies

  /** No command of the plan has this name. */
  ghost predicate Foreign(pl: Plan, name: string) {
    forall s :: s in pl.snaps ==> s.command.name != name
  }

  /** Policies with foreign names are as they were. */
  ghost predicate ForeignKept(pl: Plan, was: Table, now: Table) {
    forall k: MKey :: k in was.rows && Foreign(pl, was.rows[k].name) ==> k in now.rows && now.rows[k] == was.rows[k]
  }

  /** The write names no policy with a foreign name. */
  ghost predicate OwnWrite(pl: Plan, t: Table, w: Write) {
    match w
    case Put(k, _) => exists s :: s in pl.snaps && Bears(t, k, s.command.name)
    case Remove(k) => exists s :: s in pl.snaps && Bears(t, k, s.command.name)
    case _ => true
  }

  lemma OwnWriteKeeps(pl: Plan, was: Table, now: Table, w: Write)
    requires OwnWrite(pl, was, w) && (now == was || now == Step(was, w))
    ensures ForeignKept(pl, was, now)
  {
  }

  lemma KeptTwice(pl: Plan, a: Table, b: Table, c: Table)
    requires ForeignKept(pl, a, b) && ForeignKept(pl, b, c)
    ensures ForeignKept(pl, a, c)
  {
  }
}
