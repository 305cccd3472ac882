/** The checks a deployment makes before and after every write, and what each
    write does to the tables of the plan. */
module DeploymentSteps {
  import opened Options
  import opened PolicyTables
  import opened PolicyOrder
  import opened Repositioning
  import opened DeploymentPlans
  import opened DeploymentSafety
  import opened Devices

  datatype Revalidation = Conflict | InSync | Absent | Present(k: MKey)

  /** The key of the reviewed successor, unless it is missing or another policy
      has taken its name since the snapshot. */
  function LiveSuccessor(t: Table, s: Snapshot): Option<MKey> {
    match Find(t, s.command.insertBefore)
    case Found(a) => if s.insertBeforeMKey.Some? && s.insertBeforeMKey.value != a then None else Some(a)
    case _ => None
  }

  predicate BeforeLiveSuccessor(t: Table, s: Snapshot, k: MKey) {
    LiveSuccessor(t, s).Some? && Below(t.order, k) == LiveSuccessor(t, s)
  }

  /** What the device shows now, compared with the snapshot. */
  function Revalidate(t: Table, expected: seq<MKey>, s: Snapshot): Revalidation {
    if t.order != expected then Conflict
    else match Find(t, s.command.name)
      case Ambiguous => Conflict
      case Missing =>
        if s.command.operation == Delete then InSync
        else if s.existed || LiveSuccessor(t, s).None? then Conflict
        else Absent
      case Found(k) =>
        if k !in t.rows then Conflict
        else if s.command.operation == Delete then
          if s.existed && k == s.mkey && t.rows[k].rule == s.command.payload then Present(k) else Conflict
        else if s.existed && k != s.mkey then Conflict
        else if t.rows[k].rule == s.command.payload then
          if s.existed || BeforeLiveSuccessor(t, s, k) then InSync else Conflict
        else if s.existed && t.rows[k].rule == s.restore then Present(k)
        else Conflict
  }

  function CreatePayload(s: Snapshot): Rule {
    s.command.payload.(enabled := false)
  }

  /** The final read of every command. */
  predicate CommandInSync(t: Table, s: Snapshot) {
    match Find(t, s.command.name)
    case Missing => s.command.operation == Delete
    case Found(k) => && s.command.operation == Upsert && k in t.rows && t.rows[k].rule == s.command.payload
                     && (match Find(t, s.command.insertBefore) case Found(a) => Below(t.order, k) == Some(a) case _ => false)
    case Ambiguous => false
  }

  // ---------------------------------------------------------------- names

  lemma FindKey(t: Table, k: MKey)
    requires TableOk(t) && k in t.rows && t.rows[k].name != ""
    ensures Find(t, t.rows[k].name) == Found(k)
  {
    assert k in Elements(t.order);
    forall l | l in t.order && l in t.rows && l != k ensures t.rows[l].name != t.rows[k].name {
      assert NamesApart(t.rows, k, l);
    }
    OneMatch(t.order, t.rows, k);
  }

  lemma FindNothing(t: Table, name: string)
    requires forall k :: k in t.rows ==> t.rows[k].name != name
    ensures Find(t, name) == Missing
  {
    NoMatches(t.order, t.rows, name);
  }

  lemma PreparedName(pl: Plan, m: nat, k: MKey)
    requires PlanOk(pl) && k in Prepared(pl, m)
    ensures k !in pl.base.rows ==> exists i: nat :: i < m && IsNew(pl, i) && pl.ids[i] == k && Prepared(pl, m)[k].name == Name(pl, i)
    ensures k in pl.base.rows ==> Prepared(pl, m)[k] == pl.base.rows[k]
  {
    PreparedAt(pl, m, k);
    if k !in pl.base.rows {
      var i: nat :| i < m && IsNew(pl, i) && pl.ids[i] == k;
      PreparedNew(pl, m, i);
    }
  }

  lemma PreparedNamesApart(pl: Plan, m: nat, k: MKey, l: MKey)
    requires PlanOk(pl)
    ensures NamesApart(Prepared(pl, m), k, l)
  {
    var rows := Prepared(pl, m);
    if k in rows && l in rows && k != l {
      PreparedName(pl, m, k);
      PreparedName(pl, m, l);
      if k in pl.base.rows && l in pl.base.rows {
        assert NamesApart(pl.base.rows, k, l);
      } else if k !in pl.base.rows && l !in pl.base.rows {
        var i: nat :| i < m && IsNew(pl, i) && pl.ids[i] == k && rows[k].name == Name(pl, i);
        var j: nat :| j < m && IsNew(pl, j) && pl.ids[j] == l && rows[l].name == Name(pl, j);
        assert CommandsApart(pl, i, j);
      } else if k in pl.base.rows {
        var j: nat :| j < m && IsNew(pl, j) && pl.ids[j] == l && rows[l].name == Name(pl, j);
        assert SnapshotOk(pl, j);
      } else {
        var i: nat :| i < m && IsNew(pl, i) && pl.ids[i] == k && rows[k].name == Name(pl, i);
        assert SnapshotOk(pl, i);
      }
    }
  }

  lemma PreparedTableOk(pl: Plan, m: nat)
    requires PlanOk(pl) && m <= pl.ups
    ensures TableOk(PreparedTable(pl, m))
  {
    FullOrderFacts(pl, m);
    forall k, l ensures NamesApart(Prepared(pl, m), k, l) { PreparedNamesApart(pl, m, k, l); }
  }

  /** A change keeps the name of the row it changes. */
  lemma FinalName(pl: Plan, k: MKey)
    requires PlanOk(pl) && k in Final(pl)
    ensures k in Prepared(pl, pl.ups) && Final(pl)[k].name == Prepared(pl, pl.ups)[k].name
  {
    FinalKeys(pl);
    PreparedAt(pl, pl.ups, k);
    if k in Keys(pl) && Pos(Keys(pl), k) < pl.ups {
      var i := Pos(Keys(pl), k);
      FinalOfUpsert(pl, i);
      assert SnapshotOk(pl, i);
      if IsNew(pl, i) { PreparedNew(pl, pl.ups, i); }
    }
  }

  lemma StageTableOk(pl: Plan, done: set<MKey>)
    requires PlanOk(pl)
    ensures TableOk(StageTable(pl, done))
    ensures StageTable(pl, done).rows.Keys <= Prepared(pl, pl.ups).Keys
  {
    var t, full, rows := StageTable(pl, done), FullOrder(pl, pl.ups), Prepared(pl, pl.ups);
    FullOrderFacts(pl, pl.ups);
    FinalKeys(pl);
    OnlyFacts(full, t.rows.Keys);
    assert Elements(t.order) == t.rows.Keys;
    forall k, l ensures NamesApart(t.rows, k, l) {
      if k in t.rows && l in t.rows {
        if k in done { FinalName(pl, k); }
        if l in done { FinalName(pl, l); }
        PreparedNamesApart(pl, pl.ups, k, l);
        assert NamesApart(rows, k, l);
      }
    }
  }

  // ---------------------------------------------------------------- what a command finds

  lemma NextPresentBelow(pl: Plan, i: nat, m: nat)
    requires PlanOk(pl) && i < pl.ups && (i <= m || PresentAt(pl, i - 1, m))
    ensures NextPresent(pl, i, m) == if i == 0 then pl.anchor else Key(pl, i - 1)
  {
  }

  /** The successor is present and keeps its name. */
  lemma SuccessorIsLive(pl: Plan, i: nat, t: Table)
    requires PlanOk(pl) && i < pl.ups && TableOk(t)
    requires pl.anchor in t.rows && t.rows[pl.anchor].name == pl.base.rows[pl.anchor].name
    requires i > 0 ==> Key(pl, i - 1) in t.rows && t.rows[Key(pl, i - 1)].name == Name(pl, i - 1)
    ensures LiveSuccessor(t, pl.snaps[i]) == Some(if i == 0 then pl.anchor else Key(pl, i - 1))
    ensures Find(t, pl.snaps[i].command.insertBefore) == Found(if i == 0 then pl.anchor else Key(pl, i - 1))
  {
    assert Chained(pl, i);
    if i > 0 { assert SnapshotOk(pl, i - 1); }
    FindKey(t, if i == 0 then pl.anchor else Key(pl, i - 1));
  }

  lemma NewPolicyFindsItsPlace(pl: Plan, i: nat)
    requires PlanOk(pl) && IsNew(pl, i)
    ensures Revalidate(PreparedTable(pl, i), FullOrder(pl, i), pl.snaps[i]) == Absent
    ensures LiveSuccessor(PreparedTable(pl, i), pl.snaps[i]) == Some(NextPresent(pl, i, i))
    ensures pl.ids[i] !in Prepared(pl, i)
  {
    var t := PreparedTable(pl, i);
    PreparedTableOk(pl, i);
    assert SnapshotOk(pl, i);
    PreparedNew(pl, i, i);
    NextPresentBelow(pl, i, i);
    PreparedAt(pl, i, pl.anchor);
    if i > 0 { UpsertRow(pl, i - 1, i); }
    SuccessorIsLive(pl, i, t);
    forall k | k in t.rows ensures t.rows[k].name != Name(pl, i) {
      PreparedName(pl, i, k);
      if k !in pl.base.rows {
        var j: nat :| j < i && IsNew(pl, j) && pl.ids[j] == k && t.rows[k].name == Name(pl, j);
        assert CommandsApart(pl, i, j);
      }
    }
    FindNothing(t, Name(pl, i));
  }

  lemma UpsertRow(pl: Plan, i: nat, m: nat)
    requires PlanOk(pl) && PresentAt(pl, i, m)
    ensures Key(pl, i) in Prepared(pl, m)
    ensures Prepared(pl, m)[Key(pl, i)] == Row(Name(pl, i), if IsNew(pl, i) then CreatePayload(pl.snaps[i]) else pl.snaps[i].restore)
  {
    assert SnapshotOk(pl, i);
    if IsNew(pl, i) { PreparedNew(pl, m, i); } else { PreparedAt(pl, m, Key(pl, i)); }
  }

  /** The row of a command while the finalising phases run. */
  lemma StageRow(pl: Plan, done: set<MKey>, i: nat)
    requires PlanOk(pl) && i < pl.ups
    ensures var rows, k := StageTable(pl, done).rows, Key(pl, i);
      k in rows && rows[k] == Row(Name(pl, i), if k in done then Payload(pl, i)
                                               else if IsNew(pl, i) then CreatePayload(pl.snaps[i])
                                               else pl.snaps[i].restore)
  {
    UpsertRow(pl, i, pl.ups);
    FinalOfUpsert(pl, i);
  }

  lemma StageAnchor(pl: Plan, done: set<MKey>)
    requires PlanOk(pl) && pl.ups > 0
    ensures pl.anchor in StageTable(pl, done).rows && StageTable(pl, done).rows[pl.anchor] == pl.base.rows[pl.anchor]
  {
    forall j | 0 <= j < |pl.snaps| ensures Key(pl, j) != pl.anchor {
      assert NotTheAnchor(pl, j) && SnapshotOk(pl, j);
    }
    PreparedAt(pl, pl.ups, pl.anchor);
    FinalOfOther(pl, pl.anchor);
  }

  lemma StageDeleteRow(pl: Plan, done: set<MKey>, i: nat)
    requires PlanOk(pl) && pl.ups <= i < |pl.snaps| && pl.snaps[i].existed
    ensures var rows, k := StageTable(pl, done).rows, Key(pl, i);
      && (k in rows <==> k !in done)
      && (k in rows ==> rows[k] == Row(Name(pl, i), Payload(pl, i)))
  {
    FinalOfDelete(pl, i);
    PreparedAt(pl, pl.ups, Key(pl, i));
  }

  lemma ExistingPolicyIsPresent(pl: Plan, done: set<MKey>, i: nat)
    requires PlanOk(pl) && i < |pl.snaps| && pl.snaps[i].existed && Key(pl, i) !in done
    ensures var t := StageTable(pl, done);
      Revalidate(t, t.order, pl.snaps[i])
        == if i < pl.ups && pl.snaps[i].restore == Payload(pl, i) then InSync else Present(Key(pl, i))
  {
    StageTableOk(pl, done);
    assert SnapshotOk(pl, i);
    if i < pl.ups { StageRow(pl, done, i); } else { StageDeleteRow(pl, done, i); }
    FindKey(StageTable(pl, done), Key(pl, i));
  }

  /** A DELETE of a policy the snapshot did not see finds nothing to do. */
  lemma AbsentPolicyStaysAbsent(pl: Plan, done: set<MKey>, i: nat)
    requires PlanOk(pl) && pl.ups <= i < |pl.snaps| && !pl.snaps[i].existed
    ensures var t := StageTable(pl, done); Revalidate(t, t.order, pl.snaps[i]) == InSync
  {
    var t := StageTable(pl, done);
    StageTableOk(pl, done);
    assert SnapshotOk(pl, i);
    forall k | k in t.rows ensures t.rows[k].name != Name(pl, i) {
      if k in done { FinalName(pl, k); }
      PreparedName(pl, pl.ups, k);
      if k !in pl.base.rows {
        var j: nat :| j < pl.ups && IsNew(pl, j) && pl.ids[j] == k && Prepared(pl, pl.ups)[k].name == Name(pl, j);
        assert CommandsApart(pl, i, j);
      }
    }
    FindNothing(t, Name(pl, i));
  }

  // ---------------------------------------------------------------- what a write does

  lemma CreateThenMove(pl: Plan, i: nat)
    requires PlanOk(pl) && IsNew(pl, i)
    ensures var w := Create(pl.ids[i], Row(Name(pl, i), CreatePayload(pl.snaps[i])));
      Step(PreparedTable(pl, i), w) == UnplacedTable(pl, i)
    ensures Step(UnplacedTable(pl, i), MoveBefore(pl.ids[i], NextPresent(pl, i, i))) == PreparedTable(pl, i + 1)
  {
    PreparedGrows(pl, i + 1);
  }

  lemma {:induction false} OnlyLess(s: seq<MKey>, keep: set<MKey>, k: MKey)
    requires Distinct(s) && k in s && k in keep
    ensures Without(Only(s, keep), k) == Only(s, keep - {k})
  {
    OnlyFacts(s, keep);
    OnlyFacts(s, keep - {k});
    var a, b := Without(Only(s, keep), k), Only(s, keep - {k});
    WithoutFacts(Only(s, keep), k);
    assert Elements(a) == Elements(b);
    forall x, y | x in Elements(a) && y in Elements(a) && x in a && y in a
      ensures Above(a, x, y) <==> Above(b, x, y)
    {
      WithoutAt(Only(s, keep), k, x);
      WithoutAt(Only(s, keep), k, y);
      PosApart(Only(s, keep), x, k);
      PosApart(Only(s, keep), y, k);
      OnlyAbove(s, keep, x, y);
      OnlyAbove(s, keep - {k}, x, y);
    }
    OrderDetermines(a, b);
  }

  lemma EnabledPayload(pl: Plan, i: nat)
    requires PlanOk(pl) && i < pl.ups
    ensures Payload(pl, i).enabled
  {
    assert SnapshotOk(pl, i);
  }

  lemma FinaliseStep(pl: Plan, done: set<MKey>, i: nat)
    requires PlanOk(pl) && i < pl.ups && Key(pl, i) !in done
    ensures var patch := if IsNew(pl, i) then StatusOnly(true) else Whole(Payload(pl, i));
      Step(StageTable(pl, done), Put(Key(pl, i), patch)) == StageTable(pl, done + {Key(pl, i)})
  {
    hide Pos, FullOrder, Prepared, Final, Only;
    var k := Key(pl, i);
    StageRow(pl, done, i);
    StageRow(pl, done + {k}, i);
    FinalOfUpsert(pl, i);
    UpsertRow(pl, i, pl.ups);
    EnabledPayload(pl, i);
    var a, b := StageTable(pl, done), StageTable(pl, done + {k});
    assert a.rows.Keys == b.rows.Keys;
    assert b.rows == a.rows[k := Row(Name(pl, i), Payload(pl, i))];
  }

  lemma DeleteRowStep(pl: Plan, done: set<MKey>, i: nat)
    requires PlanOk(pl) && pl.ups <= i < |pl.snaps| && pl.snaps[i].existed && Key(pl, i) !in done
    ensures Step(StageTable(pl, done), Remove(Key(pl, i))) == StageTable(pl, done + {Key(pl, i)})
  {
    hide Pos, FullOrder, Prepared, Only;
    var k := Key(pl, i);
    StageDeleteRow(pl, done, i);
    StageDeleteRow(pl, done + {k}, i);
    var a, b := StageTable(pl, done), StageTable(pl, done + {k});
    assert b.rows == a.rows - {k};
    FullOrderFacts(pl, pl.ups);
    FinalOfDelete(pl, i);
    PreparedAt(pl, pl.ups, k);
    assert k in Elements(FullOrder(pl, pl.ups));
    OnlyLess(FullOrder(pl, pl.ups), a.rows.Keys, k);
  }

  /** Marking an unchanged key as done changes no table. */
  lemma NothingToDo(pl: Plan, done: set<MKey>, k: MKey)
    requires PlanOk(pl) && !Changed(Prepared(pl, pl.ups), Final(pl), k)
    ensures StageTable(pl, done + {k}) == StageTable(pl, done)
  {
    var before, after := Prepared(pl, pl.ups), Final(pl);
    assert Mix(before, after, done + {k}) == Mix(before, after, done);
  }

  lemma StageBounds(pl: Plan)
    requires PlanOk(pl)
    ensures StageTable(pl, {}) == PreparedTable(pl, pl.ups)
    ensures StageTable(pl, Elements(Keys(pl))) == FinalTable(pl)
  {
    hide Pos, FullOrder, Prepared, Final;
    var before, after := Prepared(pl, pl.ups), Final(pl);
    FullOrderFacts(pl, pl.ups);
    assert Mix(before, after, {}) == before;
    OnlyAll(FullOrder(pl, pl.ups), before.Keys);
    forall k | k !in Elements(Keys(pl)) ensures !Changed(before, after, k) { UntouchedKey(pl, k); }
    assert Mix(before, after, Elements(Keys(pl))) == after;
  }

  lemma LinkedIsBelow(s: seq<MKey>, x: MKey, y: MKey)
    requires Linked(s, x, y)
    ensures Below(s, x) == Some(y)
  {
  }

  lemma UpsertInSync(pl: Plan, i: nat)
    requires PlanOk(pl) && i < pl.ups
    ensures CommandInSync(FinalTable(pl), pl.snaps[i])
  {
    hide Pos, Only, Final, Keys, Below, AboveOf, FullOrder, StageTable;
    var t, all := FinalTable(pl), Elements(Keys(pl));
    StageBounds(pl);
    StageTableOk(pl, all);
    StageAnchor(pl, all);
    FinalOfUpsert(pl, i);
    if i > 0 { FinalOfUpsert(pl, i - 1); }
    assert SnapshotOk(pl, i);
    FindKey(t, Key(pl, i));
    SuccessorIsLive(pl, i, t);
    FinalBlockLinked(pl, i);
    LinkedIsBelow(t.order, Key(pl, i), if i == 0 then pl.anchor else Key(pl, i - 1));
  }

  /** Every command is in sync with the last table of the run. */
  lemma FinalTableInSync(pl: Plan, i: nat)
    requires PlanOk(pl) && i < |pl.snaps|
    ensures CommandInSync(FinalTable(pl), pl.snaps[i])
  {
    hide Pos, Only, Keys;
    assert SnapshotOk(pl, i);
    if i < pl.ups {
      UpsertInSync(pl, i);
    } else if pl.snaps[i].existed {
      DeletedNameIsFree(pl, i);
      FindNothing(FinalTable(pl), Name(pl, i));
    } else {
      StageBounds(pl);
      AbsentPolicyStaysAbsent(pl, Elements(Keys(pl)), i);
    }
  }

  lemma DeletedNameIsFree(pl: Plan, i: nat)
    requires PlanOk(pl) && pl.ups <= i < |pl.snaps| && pl.snaps[i].existed
    ensures forall k :: k in Final(pl) ==> Final(pl)[k].name != Name(pl, i)
  {
    FinalOfDelete(pl, i);
    assert SnapshotOk(pl, i);
    forall k | k in Final(pl) ensures Final(pl)[k].name != Name(pl, i) {
      FinalName(pl, k);
      PreparedNamesApart(pl, pl.ups, k, Key(pl, i));
      PreparedAt(pl, pl.ups, Key(pl, i));
    }
  }
}
