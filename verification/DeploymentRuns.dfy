/** Executing a plan on a device, phase by phase. */
module DeploymentRuns {
  import opened Options
  import opened PolicyTables
  import opened PolicyOrder
  import opened Repositioning
  import opened DeploymentPlans
  import opened DeploymentSafety
  import opened DeploymentSteps
  import opened DeploymentRecords
  import opened DeploymentChecks
  import opened Devices

  // ---------------------------------------------------------------- the tables of a run

  /** The tables a run may show. */
  ghost predicate RunTable(pl: Plan, t: Table)
    requires |pl.snaps| == |pl.ids|
  {
    || (exists m: nat :: m <= pl.ups && t == PreparedTable(pl, m))
    || (exists m: nat :: IsNew(pl, m) && t == UnplacedTable(pl, m))
    || (exists done: set<MKey> :: InPhase(pl, done) && t == StageTable(pl, done))
  }

  /** Whatever table a deployment is stopped at, a packet it accepts is accepted
      by the table before the run or by the table after it. */
  lemma EveryRunTableIsSafe(pl: Plan, t: Table, p: Packet)
    requires PlanOk(pl) && DenyTurnsWhole(pl) && RunTable(pl, t)
    ensures Accepts(t, p) ==> Accepts(pl.base, p) || Accepts(FinalTable(pl), p)
  {
    if m: nat :| m <= pl.ups && t == PreparedTable(pl, m) {
      PreparingIsHarmless(pl, m, p);
    } else if m: nat :| IsNew(pl, m) && t == UnplacedTable(pl, m) {
      PreparingIsHarmless(pl, m, p);
    } else {
      var done: set<MKey> :| InPhase(pl, done) && t == StageTable(pl, done);
      EveryStageIsSafe(pl, done, p);
    }
  }

  ghost predicate IsRunTableAt(pl: Plan, h: seq<Table>, j: nat)
    requires |pl.snaps| == |pl.ids|
  {
    j < |h| ==> RunTable(pl, h[j])
  }

  /** The history grew by tables of the run. */
  ghost predicate Grew(pl: Plan, h0: seq<Table>, h1: seq<Table>)
    requires |pl.snaps| == |pl.ids|
  {
    h0 <= h1 && forall j: nat :: j >= |h0| ==> IsRunTableAt(pl, h1, j)
  }

  lemma GrewOnce(pl: Plan, h0: seq<Table>, t: Table)
    requires |pl.snaps| == |pl.ids| && RunTable(pl, t)
    ensures Grew(pl, h0, h0 + [t])
  {
  }

  lemma GrewTwice(pl: Plan, h0: seq<Table>, h1: seq<Table>, h2: seq<Table>)
    requires |pl.snaps| == |pl.ids| && Grew(pl, h0, h1) && Grew(pl, h1, h2)
    ensures Grew(pl, h0, h2)
  {
    forall j: nat | j >= |h0| ensures IsRunTableAt(pl, h2, j) {
      assert IsRunTableAt(pl, h1, j) && IsRunTableAt(pl, h2, j);
      if j < |h1| { assert h1[j] == h2[j]; }
    }
  }

  // ---------------------------------------------------------------- one command

  /** The expected order after a policy was created and moved before `anchor`. */
  function AdvancedForCreate(order: seq<MKey>, k: MKey, anchor: MKey): Option<seq<MKey>> {
    if k in order || anchor !in order then None else Some(Inserted(order, Pos(order, anchor), k))
  }

  function AdvancedForDelete(order: seq<MKey>, k: MKey): Option<seq<MKey>> {
    if k in order then Some(Without(order, k)) else None
  }

  function CreateWrite(pl: Plan, i: nat): Write
    requires i < |pl.snaps| == |pl.ids|
  {
    Create(pl.ids[i], Row(Name(pl, i), CreatePayload(pl.snaps[i])))
  }

  /** Everything the creation of a new policy meets on the way. */
  lemma CreationGoesThrough(pl: Plan, i: nat)
    requires PlanOk(pl) && IsNew(pl, i)
    ensures var s, k, succ := pl.snaps[i], pl.ids[i], NextPresent(pl, i, i);
      var t0, t1, t2 := PreparedTable(pl, i), UnplacedTable(pl, i), PreparedTable(pl, i + 1);
      && Revalidate(t0, t0.order, s) == Absent
      && Step(t0, CreateWrite(pl, i)) == t1
      && Find(t1, s.command.name) == Found(k) && k in t1.rows && t1.rows[k].rule == CreatePayload(s)
      && LiveSuccessor(t1, s) == Some(succ)
      && Step(t1, MoveBefore(k, succ)) == t2
      && BeforeLiveSuccessor(t2, s, k)
      && AdvancedForCreate(t0.order, k, succ) == Some(t2.order)
      && RunTable(pl, t0) && RunTable(pl, t1) && RunTable(pl, t2)
  {
    hide Pos, Prepared, Inserted;
    var s, k, succ := pl.snaps[i], pl.ids[i], NextPresent(pl, i, i);
    var t0, t1, t2 := PreparedTable(pl, i), UnplacedTable(pl, i), PreparedTable(pl, i + 1);
    NewPolicyFindsItsPlace(pl, i);
    CreateThenMove(pl, i);
    CreatedIsFound(pl, i);
    PreparedTableOk(pl, i);
    NextPresentIsThere(pl, i, i);
    assert succ in Elements(t0.order) && k !in Elements(t0.order);
    Placed(t0.order, k, succ);
    SelfLinks(t0.order, k, succ);
    LinkedIsBelow(t2.order, k, succ);
  }

  lemma UnplacedTableOk(pl: Plan, i: nat)
    requires PlanOk(pl) && IsNew(pl, i)
    ensures TableOk(UnplacedTable(pl, i))
  {
    UnplacedGrounded(pl, i);
    forall k, l ensures NamesApart(UnplacedTable(pl, i).rows, k, l) { PreparedNamesApart(pl, i + 1, k, l); }
  }

  lemma CreatedIsFound(pl: Plan, i: nat)
    requires PlanOk(pl) && IsNew(pl, i)
    ensures var s, k := pl.snaps[i], pl.ids[i];
      var t1, t2 := UnplacedTable(pl, i), PreparedTable(pl, i + 1);
      && Find(t1, s.command.name) == Found(k) && k in t1.rows && t1.rows[k].rule == CreatePayload(s)
      && LiveSuccessor(t1, s) == Some(NextPresent(pl, i, i)) && LiveSuccessor(t2, s) == Some(NextPresent(pl, i, i))
  {
    hide Pos, Prepared, FullOrder, NextPresent, Find, Matches, Keys, AboveOf, Below;
    var t1, t2 := UnplacedTable(pl, i), PreparedTable(pl, i + 1);
    PreparedTableOk(pl, i + 1);
    UnplacedTableOk(pl, i);
    assert SnapshotOk(pl, i);
    PreparedNew(pl, i + 1, i);
    FindKey(t1, pl.ids[i]);
    NextPresentBelow(pl, i, i);
    PreparedAt(pl, i + 1, pl.anchor);
    if i > 0 { UpsertRow(pl, i - 1, i + 1); }
    SuccessorIsLive(pl, i, t1);
    SuccessorIsLive(pl, i, t2);
  }

  /** A policy that already exists is kept in place while it is finalised. */
  lemma FinalisationGoesThrough(pl: Plan, done: set<MKey>, i: nat)
    requires PlanOk(pl) && i < pl.ups && Key(pl, i) !in done
    ensures var t1, k := StageTable(pl, done + {Key(pl, i)}), Key(pl, i);
      var t0 := StageTable(pl, done);
      && t1.order == t0.order
      && Find(t0, Name(pl, i)) == Found(k) && k in t0.rows
      && Find(t1, Name(pl, i)) == Found(k) && k in t1.rows && t1.rows[k].rule == Payload(pl, i)
      && t0.rows[k].rule == (if IsNew(pl, i) then CreatePayload(pl.snaps[i]) else pl.snaps[i].restore)
      && Step(t0, Put(k, if IsNew(pl, i) then StatusOnly(true) else Whole(Payload(pl, i)))) == t1
  {
    hide Pos, Prepared, Final, FullOrder;
    var k := Key(pl, i);
    StageTableOk(pl, done);
    StageTableOk(pl, done + {k});
    StageRow(pl, done, i);
    StageRow(pl, done + {k}, i);
    FinaliseStep(pl, done, i);
    assert SnapshotOk(pl, i);
    FindKey(StageTable(pl, done), k);
    FindKey(StageTable(pl, done + {k}), k);
  }

  lemma RemovalGoesThrough(pl: Plan, done: set<MKey>, i: nat)
    requires PlanOk(pl) && pl.ups <= i < |pl.snaps| && pl.snaps[i].existed && Key(pl, i) !in done
    ensures var t0, t1, k := StageTable(pl, done), StageTable(pl, done + {Key(pl, i)}), Key(pl, i);
      && Revalidate(t0, t0.order, pl.snaps[i]) == Present(k)
      && Step(t0, Remove(k)) == t1
      && Find(t1, Name(pl, i)) == Missing
      && AdvancedForDelete(t0.order, k) == Some(t1.order)
      && k !in t1.rows
  {
    hide Pos, Prepared, Final, FullOrder, Only;
    var t0, t1, k := StageTable(pl, done), StageTable(pl, done + {Key(pl, i)}), Key(pl, i);
    ExistingPolicyIsPresent(pl, done, i);
    DeleteRowStep(pl, done, i);
    StageDeleteRow(pl, done, i);
    StageDeleteRow(pl, done + {k}, i);
    StageTableOk(pl, done);
    assert k in Elements(t0.order);
    forall l | l in t1.rows ensures t1.rows[l].name != Name(pl, i) {
      assert l != k && l in t0.rows && t0.rows[l] == t1.rows[l];
      assert NamesApart(t0.rows, k, l);
      assert SnapshotOk(pl, i);
    }
    FindNothing(t1, Name(pl, i));
  }

  // ---------------------------------------------------------------- the run

  lemma LastMayBeInDoubt(pl: Plan, rows: map<MKey, Row>, touched: seq<nat>, post: seq<Post>)
    requires Recorded(pl, rows, touched, post, |touched|)
    ensures Recorded(pl, rows, touched, post, if touched == [] then 0 else |touched| - 1)
  {
  }

  /** An observation of a present policy is correct. */
  lemma ObservationIsCorrect(pl: Plan, t: Table, touched: seq<nat>, post: seq<Post>, i: nat, state: Rule)
    requires PlanOk(pl) && i < pl.ups && touched != [] && touched[|touched| - 1] == i
    requires Recorded(pl, t.rows, touched, post, |touched| - 1) && Grounded(pl, t)
    requires pl.snaps[i].existed ==> Key(pl, i) in t.rows && t.rows[Key(pl, i)].rule == state == Payload(pl, i)
    ensures Recorded(pl, t.rows, touched, post[i := Seen(Key(pl, i), state, t.order)], |touched|)
  {
    GroundedOrder(pl, t, touched);
    RecordPost(pl, t.rows, touched, post, post[i := Seen(Key(pl, i), state, t.order)], i);
  }

  lemma AbsenceIsCorrect(pl: Plan, t: Table, touched: seq<nat>, post: seq<Post>, i: nat)
    requires PlanOk(pl) && pl.ups <= i < |pl.snaps| && touched != [] && touched[|touched| - 1] == i
    requires Recorded(pl, t.rows, touched, post, |touched| - 1) && Grounded(pl, t)
    requires Key(pl, i) !in t.rows
    ensures Recorded(pl, t.rows, touched, post[i := Gone(t.order)], |touched|)
  {
    GroundedOrder(pl, t, touched);
    RecordPost(pl, t.rows, touched, post, post[i := Gone(t.order)], i);
  }

  /** The records at every point where creating a policy may be interrupted. */
  lemma CreationIsRecorded(pl: Plan, i: nat, touched: seq<nat>, post: seq<Post>)
    requires PlanOk(pl) && IsNew(pl, i)
    requires Recorded(pl, Prepared(pl, i), touched, post, |touched|)
    ensures var touched', seen := Touched(touched, i), (order: seq<MKey>) => post[i := Seen(pl.ids[i], CreatePayload(pl.snaps[i]), order)];
      && |post| == |pl.snaps| && touched' != []
      && Recorded(pl, Prepared(pl, i), touched', post, |touched'| - 1)
      && Recorded(pl, Prepared(pl, i + 1), touched', post, |touched'| - 1)
      && Recorded(pl, Prepared(pl, i + 1), touched', seen(UnplacedTable(pl, i).order), |touched'|)
      && Recorded(pl, Prepared(pl, i + 1), touched', seen(PreparedTable(pl, i + 1).order), |touched'|)
  {
    hide Touched, Recorded, Prepared, FullOrder;
    var touched' := Touched(touched, i);
    LastTouched(touched, i);
    RecordedLength(pl, Prepared(pl, i), touched, post);
    PreparedGrows(pl, i + 1);
    RecordTouch(pl, Prepared(pl, i), Prepared(pl, i), touched, post, i);
    RecordTouch(pl, Prepared(pl, i), Prepared(pl, i + 1), touched, post, i);
    UnplacedGrounded(pl, i);
    PreparedGrounded(pl, i + 1);
    ObservationIsCorrect(pl, UnplacedTable(pl, i), touched', post, i, CreatePayload(pl.snaps[i]));
    ObservationIsCorrect(pl, PreparedTable(pl, i + 1), touched', post, i, CreatePayload(pl.snaps[i]));
  }

  lemma RecordedLength(pl: Plan, rows: map<MKey, Row>, touched: seq<nat>, post: seq<Post>)
    requires Recorded(pl, rows, touched, post, |touched|)
    ensures |post| == |pl.snaps| == |pl.ids|
  {
  }

  /** A new policy stays directly before its successor while others are created. */
  lemma {:induction false} CreatedStaysLinked(pl: Plan, i: nat, m: nat)
    requires PlanOk(pl) && IsNew(pl, i) && i < m <= pl.ups
    ensures Linked(FullOrder(pl, m), pl.ids[i], NextPresent(pl, i, i))
    decreases m
  {
    hide Pos, Prepared, Inserted, MovedBefore;
    var s := FullOrder(pl, m - 1);
    FullOrderFacts(pl, m - 1);
    NextPresentIsThere(pl, m - 1, m - 1);
    var k, succ := pl.ids[m - 1], NextPresent(pl, m - 1, m - 1);
    assert succ in s by { assert succ in Elements(s); }
    if i == m - 1 {
      PreparedGrows(pl, m);
      assert k !in Elements(s);
      Placed(s, k, succ);
      SelfLinks(s, k, succ);
    } else {
      CreatedStaysLinked(pl, i, m - 1);
      if IsNew(pl, m - 1) {
        PreparedGrows(pl, m);
        assert k !in Elements(s);
        Placed(s, k, succ);
        NextBelowUpTo(pl, i, m - 1);
        LowerSuccessor(pl, i, m - 1);
        InsertedLinks(s, k, succ, pl.ids[i], NextPresent(pl, i, i));
      }
    }
  }

  lemma {:induction false} NextBelowUpTo(pl: Plan, i: nat, m: nat)
    requires PlanOk(pl) && i <= m <= pl.ups
    ensures NextPresent(pl, i, m) == NextPresent(pl, i, i)
    decreases m
  {
    if i < m {
      NextBelow(pl, i, m);
      NextBelowUpTo(pl, i, m - 1);
    }
  }

  lemma NewPolicyStandsInPlace(pl: Plan, done: set<MKey>, i: nat)
    requires PlanOk(pl) && IsNew(pl, i)
    ensures BeforeLiveSuccessor(StageTable(pl, done), pl.snaps[i], pl.ids[i])
  {
    hide Pos, Prepared, FullOrder, Only, Final;
    var t, succ := StageTable(pl, done), NextPresent(pl, i, i);
    StageTableOk(pl, done);
    StageAnchor(pl, done);
    StageRow(pl, done, i);
    NextPresentBelow(pl, i, i);
    if i > 0 { StageRow(pl, done, i - 1); }
    SuccessorIsLive(pl, i, t);
    CreatedStaysLinked(pl, i, pl.ups);
    FullOrderFacts(pl, pl.ups);
    OnlyLinked(FullOrder(pl, pl.ups), t.rows.Keys, pl.ids[i], succ);
    LinkedIsBelow(t.order, pl.ids[i], succ);
  }

  /** The records at every point where a change of one row may be interrupted. */
  lemma ChangeIsRecorded(pl: Plan, done: set<MKey>, i: nat, touched: seq<nat>, post: seq<Post>)
    requires PlanOk(pl) && i < |pl.snaps| && done <= Elements(Keys(pl))
    requires Recorded(pl, StageTable(pl, done).rows, touched, post, |touched|)
    requires post[i].Unobserved? || IsNew(pl, i)
    requires i >= pl.ups ==> pl.snaps[i].existed
    ensures var touched', t0, t1 := Touched(touched, i), StageTable(pl, done), StageTable(pl, done + {Key(pl, i)});
      && touched' != [] && touched'[|touched'| - 1] == i
      && Recorded(pl, t0.rows, touched', post, |touched'| - 1)
      && Recorded(pl, t1.rows, touched', post, |touched'| - 1)
      && Grounded(pl, t0) && Grounded(pl, t1)
  {
    hide Touched, Recorded, Prepared, Final, FullOrder, Only, Keys, Pos;
    var t0, t1, k := StageTable(pl, done), StageTable(pl, done + {Key(pl, i)}), Key(pl, i);
    LastTouched(touched, i);
    KeyIndex(pl, i);
    StageGrounded(pl, done);
    StageGrounded(pl, done + {k});
    RecordTouch(pl, t0.rows, t0.rows, touched, post, i);
    forall l | l != k ensures SameRow(t0.rows, t1.rows, l) { }
    ChangeKeepsKeys(pl, done, i);
    RecordTouch(pl, t0.rows, t1.rows, touched, post, i);
  }

  lemma ChangeKeepsKeys(pl: Plan, done: set<MKey>, i: nat)
    requires PlanOk(pl) && i < |pl.snaps| && (i >= pl.ups ==> pl.snaps[i].existed)
    ensures StageTable(pl, done).rows.Keys <= StageTable(pl, done + {Key(pl, i)}).rows.Keys + pl.base.rows.Keys
  {
    hide Prepared, Final, FullOrder, Only;
    assert SnapshotOk(pl, i);
    if i < pl.ups { StageRow(pl, done + {Key(pl, i)}, i); }
  }

  lemma UnchangedPayload(pl: Plan, i: nat)
    requires PlanOk(pl) && i < pl.ups && !IsNew(pl, i)
    ensures pl.snaps[i].restore == Payload(pl, i) ==> !Changed(Prepared(pl, pl.ups), Final(pl), Key(pl, i))
  {
    UpsertRow(pl, i, pl.ups);
    FinalOfUpsert(pl, i);
  }

  lemma AbsentUnchanged(pl: Plan, i: nat)
    requires PlanOk(pl) && pl.ups <= i < |pl.snaps| && !pl.snaps[i].existed
    ensures !Changed(Prepared(pl, pl.ups), Final(pl), Key(pl, i))
  {
    KeyIndex(pl, i);
    UntouchedKey(pl, Key(pl, i));
  }

  lemma SeenKey(pl: Plan, rows: map<MKey, Row>, touched: seq<nat>, post: seq<Post>, i: nat)
    requires Recorded(pl, rows, touched, post, |touched|) && i < |post| && post[i].Seen?
    ensures post[i].k == Key(pl, i)
  {
    assert PostOk(pl, rows, touched, post, i);
  }

  // ---------------------------------------------------------------- the phases

  /** The UPSERTs from `from` on whose reviewed action is `action`. */
  function UpsertKeys(pl: Plan, action: Action, from: nat): set<MKey>
    requires |pl.snaps| == |pl.ids| && pl.ups <= |pl.snaps|
  {
    set i | from <= i < pl.ups && Payload(pl, i).action == action :: Key(pl, i)
  }

  /** The DELETEs before `to` whose removed action is `action`. */
  function DeleteKeys(pl: Plan, action: Action, to: nat): set<MKey>
    requires |pl.snaps| == |pl.ids| && to <= |pl.snaps|
  {
    set i | pl.ups <= i < to && Payload(pl, i).action == action :: Key(pl, i)
  }

  predicate KeyWithin(pl: Plan, done: set<MKey>, rank: nat, i: nat) {
    i < |pl.snaps| == |pl.ids| && Key(pl, i) in done ==> StageRank(StageOf(pl, i)) <= rank
  }

  predicate KeyDone(pl: Plan, done: set<MKey>, rank: nat, i: nat) {
    i < |pl.snaps| == |pl.ids| && StageRank(StageOf(pl, i)) < rank ==> Key(pl, i) in done
  }

  /** The phases below `rank` are complete and none above it has begun. */
  ghost predicate AtPhase(pl: Plan, done: set<MKey>, rank: nat)
    requires |pl.snaps| == |pl.ids|
  {
    && done <= Elements(Keys(pl))
    && (forall i: nat :: KeyWithin(pl, done, rank, i))
    && (forall i: nat :: KeyDone(pl, done, rank, i))
  }

  lemma PhaseIsInOrder(pl: Plan, done: set<MKey>, rank: nat)
    requires PlanOk(pl) && AtPhase(pl, done, rank)
    ensures InPhase(pl, done)
  {
    hide Prepared, Final, FullOrder;
    var stages := Stages(pl);
    forall j, k | j in stages && k in stages && j in done && StageRank(stages[k]) < StageRank(stages[j])
      ensures k in done
    {
      var a, b := Pos(Keys(pl), j), Pos(Keys(pl), k);
      assert KeyWithin(pl, done, rank, a) && KeyDone(pl, done, rank, b);
    }
  }

  lemma PhaseGrows(pl: Plan, done: set<MKey>, rank: nat, i: nat)
    requires PlanOk(pl) && AtPhase(pl, done, rank) && i < |pl.snaps| && StageRank(StageOf(pl, i)) <= rank
    ensures AtPhase(pl, done + {Key(pl, i)}, rank)
    ensures InPhase(pl, done) && InPhase(pl, done + {Key(pl, i)})
  {
    KeyIndex(pl, i);
    forall l: nat ensures KeyWithin(pl, done + {Key(pl, i)}, rank, l) {
      assert KeyWithin(pl, done, rank, l);
      if l < |pl.snaps| && l != i { KeysApart(pl, l, i); }
    }
    forall l: nat ensures KeyDone(pl, done + {Key(pl, i)}, rank, l) {
      assert KeyDone(pl, done, rank, l);
    }
    PhaseIsInOrder(pl, done, rank);
    PhaseIsInOrder(pl, done + {Key(pl, i)}, rank);
  }

  /** What the records show of a command that is not finalised yet. */
  predicate AwaitsTurn(pl: Plan, post: seq<Post>, done: set<MKey>, i: nat) {
    i < |post| == |pl.snaps| == |pl.ids| && Key(pl, i) !in done ==>
      if IsNew(pl, i) then post[i].Seen? else post[i].Unobserved?
  }

  lemma AwaitingStep(pl: Plan, post: seq<Post>, post': seq<Post>, done: set<MKey>, i: nat)
    requires |pl.snaps| == |pl.ids| && i < |pl.snaps|
    requires forall l: nat :: AwaitsTurn(pl, post, done, l)
    requires |post'| == |post| && forall l :: 0 <= l < |post| && l != i ==> post'[l] == post[l]
    ensures forall l: nat :: AwaitsTurn(pl, post', done + {Key(pl, i)}, l)
  {
    forall l: nat ensures AwaitsTurn(pl, post', done + {Key(pl, i)}, l) {
      assert AwaitsTurn(pl, post, done, l);
    }
  }

  lemma BaseIsPrepared(pl: Plan)
    requires PlanOk(pl)
    ensures pl.base == PreparedTable(pl, 0) && RunTable(pl, pl.base) && Grounded(pl, pl.base)
  {
    PreparedGrounded(pl, 0);
    assert NewKeys(pl, 0) == {};
    assert Prepared(pl, 0) == pl.base.rows;
  }

  lemma GrewNothing(pl: Plan, h: seq<Table>)
    requires |pl.snaps| == |pl.ids|
    ensures Grew(pl, h, h)
  {
  }

  lemma SkippedIsPrepared(pl: Plan, i: nat)
    requires PlanOk(pl) && i < pl.ups && !IsNew(pl, i)
    ensures PreparedTable(pl, i + 1) == PreparedTable(pl, i)
  {
    hide Prepared;
    PreparedGrows(pl, i + 1);
  }

  lemma RunningIsStopped(pl: Plan, done: set<MKey>, rank: nat, t: Table, touched: seq<nat>, post: seq<Post>)
    requires PlanOk(pl) && AtPhase(pl, done, rank) && t == StageTable(pl, done)
    requires Recorded(pl, t.rows, touched, post, |touched|)
    ensures RunTable(pl, t) && Grounded(pl, t) && InPhase(pl, done) && forall m: nat :: InPlace(pl, t, touched, m)
    ensures Recorded(pl, t.rows, touched, post, if touched == [] then 0 else |touched| - 1)
    ensures UpsertKeys(pl, Accept, pl.ups) == {} == UpsertKeys(pl, Deny, pl.ups)
    ensures DeleteKeys(pl, Accept, pl.ups) == {} == DeleteKeys(pl, Deny, pl.ups)
  {
    PhaseIsInOrder(pl, done, rank);
    StageGrounded(pl, done);
    StageInPlace(pl, done, touched);
    LastMayBeInDoubt(pl, t.rows, touched, post);
  }

  lemma NextTurn(pl: Plan, action: Action, done0: set<MKey>, done: set<MKey>, i: nat, post: seq<Post>, rows: map<MKey, Row>, touched: seq<nat>)
    requires PlanOk(pl) && i < pl.ups && Payload(pl, i).action == action
    requires UpsertKeys(pl, action, 0) !! done0 && done == done0 + UpsertKeys(pl, action, i + 1)
    requires Recorded(pl, rows, touched, post, |touched|) && forall l: nat :: AwaitsTurn(pl, post, done, l)
    requires AtPhase(pl, done, if action == Deny then 0 else 1)
    ensures Key(pl, i) !in done && done <= Elements(Keys(pl)) && i < |post| == |pl.snaps|
    ensures if IsNew(pl, i) then post[i].Seen? else post[i].Unobserved?
    ensures StageRank(StageOf(pl, i)) <= if action == Deny then 0 else 1
  {
    assert Key(pl, i) in UpsertKeys(pl, action, 0);
    if Key(pl, i) in UpsertKeys(pl, action, i + 1) {
      var j :| i + 1 <= j < pl.ups && Payload(pl, j).action == action && Key(pl, j) == Key(pl, i);
      KeysApart(pl, i, j);
    }
    assert AwaitsTurn(pl, post, done, i);
  }

  lemma NextDelete(pl: Plan, action: Action, done0: set<MKey>, done: set<MKey>, i: nat, post: seq<Post>, rows: map<MKey, Row>, touched: seq<nat>)
    requires PlanOk(pl) && pl.ups <= i < |pl.snaps| && Payload(pl, i).action == action
    requires DeleteKeys(pl, action, |pl.snaps|) !! done0 && done == done0 + DeleteKeys(pl, action, i)
    requires Recorded(pl, rows, touched, post, |touched|) && forall l: nat :: AwaitsTurn(pl, post, done, l)
    requires AtPhase(pl, done, if action == Deny then 2 else 0)
    ensures Key(pl, i) !in done && done <= Elements(Keys(pl)) && i < |post| == |pl.snaps| && post[i].Unobserved?
    ensures StageRank(StageOf(pl, i)) <= if action == Deny then 2 else 0
  {
    assert Key(pl, i) in DeleteKeys(pl, action, |pl.snaps|);
    if Key(pl, i) in DeleteKeys(pl, action, i) {
      var j :| pl.ups <= j < i && Payload(pl, j).action == action && Key(pl, j) == Key(pl, i);
      KeysApart(pl, i, j);
    }
    assert AwaitsTurn(pl, post, done, i);
  }

  lemma UpsertKeysGrow(pl: Plan, action: Action, i: nat)
    requires PlanOk(pl) && i < pl.ups
    ensures UpsertKeys(pl, action, i) == UpsertKeys(pl, action, i + 1) + if Payload(pl, i).action == action then {Key(pl, i)} else {}
  {
  }

  lemma DeleteKeysGrow(pl: Plan, action: Action, i: nat)
    requires PlanOk(pl) && pl.ups <= i < |pl.snaps|
    ensures DeleteKeys(pl, action, i + 1) == DeleteKeys(pl, action, i) + if Payload(pl, i).action == action then {Key(pl, i)} else {}
  {
  }

  lemma UpsertKeyIs(pl: Plan, action: Action, k: MKey)
    requires PlanOk(pl)
    ensures k in UpsertKeys(pl, action, 0) <==>
      k in Keys(pl) && Pos(Keys(pl), k) < pl.ups && Payload(pl, Pos(Keys(pl), k)).action == action
  {
    if k in UpsertKeys(pl, action, 0) {
      var i :| 0 <= i < pl.ups && Payload(pl, i).action == action && Key(pl, i) == k;
      KeyIndex(pl, i);
    }
    if k in Keys(pl) { assert Key(pl, Pos(Keys(pl), k)) == k; }
  }

  lemma DeleteKeyIs(pl: Plan, action: Action, k: MKey)
    requires PlanOk(pl)
    ensures k in DeleteKeys(pl, action, |pl.snaps|) <==>
      k in Keys(pl) && Pos(Keys(pl), k) >= pl.ups && Payload(pl, Pos(Keys(pl), k)).action == action
  {
    if k in DeleteKeys(pl, action, |pl.snaps|) {
      var i :| pl.ups <= i < |pl.snaps| && Payload(pl, i).action == action && Key(pl, i) == k;
      KeyIndex(pl, i);
    }
    if k in Keys(pl) { assert Key(pl, Pos(Keys(pl), k)) == k; }
  }

  /** The four finalising phases touch different keys and together all of them. */
  lemma PhasesPartition(pl: Plan)
    requires PlanOk(pl)
    ensures var n := |pl.snaps|;
      var d1, d2 := UpsertKeys(pl, Deny, 0), DeleteKeys(pl, Accept, n);
      var d3, d4 := UpsertKeys(pl, Accept, 0), DeleteKeys(pl, Deny, n);
      && d1 !! d2 && (d1 + d2) !! d3 && (d1 + d2 + d3) !! d4
      && d1 + d2 + d3 + d4 == Elements(Keys(pl))
      && AtPhase(pl, {}, 0) && AtPhase(pl, d1, 0) && AtPhase(pl, d1 + d2, 1) && AtPhase(pl, d1 + d2 + d3, 2)
  {
    var n := |pl.snaps|;
    var d1, d2 := UpsertKeys(pl, Deny, 0), DeleteKeys(pl, Accept, n);
    var d3, d4 := UpsertKeys(pl, Accept, 0), DeleteKeys(pl, Deny, n);
    forall k
      ensures k in d1 <==> k in Keys(pl) && Pos(Keys(pl), k) < pl.ups && Payload(pl, Pos(Keys(pl), k)).action == Deny
      ensures k in d2 <==> k in Keys(pl) && Pos(Keys(pl), k) >= pl.ups && Payload(pl, Pos(Keys(pl), k)).action == Accept
      ensures k in d3 <==> k in Keys(pl) && Pos(Keys(pl), k) < pl.ups && Payload(pl, Pos(Keys(pl), k)).action == Accept
      ensures k in d4 <==> k in Keys(pl) && Pos(Keys(pl), k) >= pl.ups && Payload(pl, Pos(Keys(pl), k)).action == Deny
    {
      UpsertKeyIs(pl, Deny, k);
      UpsertKeyIs(pl, Accept, k);
      DeleteKeyIs(pl, Deny, k);
      DeleteKeyIs(pl, Accept, k);
    }
    PhaseBounds(pl, {}, d1, d2, d3);
  }

  lemma PhaseBounds(pl: Plan, d0: set<MKey>, d1: set<MKey>, d2: set<MKey>, d3: set<MKey>)
    requires PlanOk(pl) && d0 == {}
    requires forall k :: k in d1 <==> k in Keys(pl) && Pos(Keys(pl), k) < pl.ups && Payload(pl, Pos(Keys(pl), k)).action == Deny
    requires forall k :: k in d2 <==> k in Keys(pl) && Pos(Keys(pl), k) >= pl.ups && Payload(pl, Pos(Keys(pl), k)).action == Accept
    requires forall k :: k in d3 <==> k in Keys(pl) && Pos(Keys(pl), k) < pl.ups && Payload(pl, Pos(Keys(pl), k)).action == Accept
    ensures AtPhase(pl, d0, 0) && AtPhase(pl, d1, 0) && AtPhase(pl, d1 + d2, 1) && AtPhase(pl, d1 + d2 + d3, 2)
  {
    forall i: nat
      ensures KeyWithin(pl, d0, 0, i) && KeyDone(pl, d0, 0, i) && KeyWithin(pl, d1, 0, i) && KeyDone(pl, d1, 0, i)
      ensures KeyWithin(pl, d1 + d2, 1, i) && KeyDone(pl, d1 + d2, 1, i)
      ensures KeyWithin(pl, d1 + d2 + d3, 2, i) && KeyDone(pl, d1 + d2 + d3, 2, i)
    {
      if i < |pl.snaps| { KeyIndex(pl, i); }
    }
  }

  class DeploymentRun {
    const pl: Plan
    const device: Device
    /** The order the device is expected to show. */
    var policyOrder: seq<MKey>
    var post: seq<Post>
    /** The mutated commands, latest last. */
    var touched: seq<nat>
    /** Nobody has changed the device since the snapshot, nor will. */
    ghost const clean: bool

    /** Whatever the device may show. */
    ghost predicate Sane()
      reads this, device
    {
      PlanOk(pl) && |post| == |pl.snaps| && EachOnce(device.t)
    }

    /** Everything asked for so far has been done, verified and recorded. */
    ghost predicate Ready()
      reads this, device
    {
      && PlanOk(pl)
      && policyOrder == device.t.order
      && Recorded(pl, device.t.rows, touched, post, |touched|)
    }

    /** The run may have been stopped by its last write. */
    ghost predicate Stopped()
      reads this, device
    {
      && PlanOk(pl)
      && RunTable(pl, device.t) && Grounded(pl, device.t)
      && Recorded(pl, device.t.rows, touched, post, if touched == [] then 0 else |touched| - 1)
      && forall m: nat :: InPlace(pl, device.t, touched, m)
    }

    constructor (pl: Plan, device: Device)
      requires PlanOk(pl) && EachOnce(device.t)
      ensures this.pl == pl && this.device == device && touched == [] && policyOrder == pl.base.order
      ensures Sane() && post == seq(|pl.snaps|, _ => Unobserved)
      ensures clean == (device.t == pl.base) && (clean ==> Ready())
    {
      this.pl, this.device, clean := pl, device, device.t == pl.base;
      policyOrder, touched := pl.base.order, [];
      post := seq(|pl.snaps|, _ => Unobserved);
      new;
      if clean {
        forall i: nat ensures ItemTouched(pl, device.t.rows, touched, i) { }
        forall i: nat ensures PostOk(pl, device.t.rows, touched, post, i) { }
      }
    }

    /** Creates a new policy disabled and moves it before its successor. Nothing is
        written unless the order is as expected, the name is free and there is a place. */
    method PrepareNew(i: nat) returns (ok: bool)
      requires Sane() && IsNew(pl, i) && (clean ==> Ready() && device.t == PreparedTable(pl, i))
      modifies this`policyOrder, this`post, this`touched, device
      ensures Sane() && ForeignKept(pl, old(device.t), device.t) && old(device.history) <= device.history
      ensures if device.history == old(device.history) then device.t == old(device.t) && policyOrder == old(policyOrder)
              else MayCreate(old(device.t), old(policyOrder), pl.snaps[i])
      ensures ok ==> post[i].Seen? && MayEnable(device.t, policyOrder, pl.snaps[i], post[i].k)
      ensures clean ==> Stopped() && Grew(pl, old(device.history), device.history)
      ensures clean && ok ==> Ready() && device.t == PreparedTable(pl, i + 1)
      ensures clean && old(device.link).Stable? ==> ok && device.link.Stable?
      ensures forall l :: 0 <= l < |post| && l != i ==> post[l] == old(post[l])
    {
      hide Prepared, FullOrder, Recorded, Grounded, Revalidate, Find, LiveSuccessor, BeforeLiveSuccessor, NextPresent, EachOnce;
      hide AdvancedForCreate, Touched, RunTable, Grew, Step, CreateWrite, CreatePayload, MayCreate, MayEnable, ForeignKept;
      var s := pl.snaps[i];
      ok := false;
      RevalidateIs(device.t, policyOrder, s);
      NothingLost(pl, device.t);
      if clean {
        CreationGoesThrough(pl, i);
        CreationIsRecorded(pl, i, touched, post);
        PreparedGrounded(pl, i);
        PreparedGrounded(pl, i + 1);
        UnplacedGrounded(pl, i);
      }
      if Revalidate(device.t, policyOrder, s) == Absent {
        ghost var h, t0 := device.history, device.t;
        var sent := device.Send(CreateWrite(pl, i));
        CreateKeeps(pl, i, t0, device.t);
        if clean { GrewOnce(pl, h, device.t); }
        touched := Touched(touched, i);
        if sent && Find(device.t, s.command.name).Found? {
          var k := Find(device.t, s.command.name).k;
          post := post[i := Seen(k, CreatePayload(s), device.t.order)];
          if clean { LastMayBeInDoubt(pl, device.t.rows, touched, post); }
          if k in device.t.rows && device.t.rows[k].rule == CreatePayload(s) && LiveSuccessor(device.t, s).Some? {
            var anchor := LiveSuccessor(device.t, s).value;
            ghost var h', t1 := device.history, device.t;
            sent := device.Send(MoveBefore(k, anchor));
            MoveKeeps(pl, k, anchor, t0, t1, device.t);
            if clean {
              GrewOnce(pl, h', device.t);
              GrewTwice(pl, h, h', device.history);
            }
            var next := AdvancedForCreate(policyOrder, k, anchor);
            if sent && BeforeLiveSuccessor(device.t, s, k) && next == Some(device.t.order) {
              policyOrder := next.value;
              post := post[i := Seen(k, CreatePayload(s), device.t.order)];
              assert post == old(post)[i := Seen(k, CreatePayload(s), device.t.order)];
              if clean { LastMayBeInDoubt(pl, device.t.rows, touched, post); }
              MayBeEnabled(t1, device.t, s, k);
              ok := true;
            }
          }
        }
        if clean {
          LastTouched(old(touched), i);
          UnplacedInPlace(pl, i, touched);
        }
      }
      if clean {
        PreparedInPlace(pl, i, touched);
        PreparedInPlace(pl, i + 1, touched);
      }
    }

    /** Writes the reviewed payload over a policy that existed before the run. Nothing
        is written unless the policy and the order are as they were approved. */
    method UpdateExisting(i: nat, ghost done: set<MKey>) returns (ok: bool)
      requires Sane() && i < pl.ups && !IsNew(pl, i)
      requires clean ==> Ready() && device.t == StageTable(pl, done) && Turn(pl, post, done, i)
      modifies this`post, this`touched, device
      ensures Sane() && ForeignKept(pl, old(device.t), device.t) && old(device.history) <= device.history
      ensures if device.history == old(device.history) then device.t == old(device.t)
              else MayReplace(old(device.t), policyOrder, pl.snaps[i], pl.snaps[i].mkey)
      ensures ok ==> device.t.order == policyOrder && exists k: MKey :: Holds(device.t, pl.snaps[i], k, pl.snaps[i].command.payload)
      ensures clean ==> Stopped() && Grew(pl, old(device.history), device.history)
      ensures clean && ok ==> Ready() && device.t == StageTable(pl, done + {Key(pl, i)})
      ensures clean && old(device.link).Stable? ==> ok && device.link.Stable?
      ensures forall l :: 0 <= l < |post| && l != i ==> post[l] == old(post[l])
    {
      hide Prepared, Final, FullOrder, Only, Recorded, Grounded, Revalidate, Find, Touched, Step, Mix, InPhase, Keys, EachOnce;
      hide MayReplace, ForeignKept, Holds, Grew, RunTable, StageTable;
      var s := pl.snaps[i];
      ok := false;
      RevalidateIs(device.t, policyOrder, s);
      NothingLost(pl, device.t);
      DoneMeans(device.t, policyOrder, s);
      DeleteIsDelete(pl, i);
      if clean {
        FinalisationGoesThrough(pl, done, i);
        ExistingPolicyIsPresent(pl, done, i);
        ChangeIsRecorded(pl, done, i, touched, post);
        UnchangedPayload(pl, i);
        StageIsRunTable(pl, done, i);
        LastMayBeInDoubt(pl, device.t.rows, touched, post);
        GrewNothing(pl, device.history);
      }
      var now := Revalidate(device.t, policyOrder, s);
      if now == InSync {
        if clean { NothingToDo(pl, done, Key(pl, i)); }
        ok := true;
      } else if now.Present? {
        ghost var h, t0 := device.history, device.t;
        ReplaceMeans(t0, policyOrder, s, now.k);
        var sent := device.Send(Put(now.k, Whole(s.command.payload)));
        PutKeeps(pl, i, now.k, Whole(s.command.payload), t0, device.t);
        if clean { GrewOnce(pl, h, device.t); }
        touched := Touched(touched, i);
        if sent && Find(device.t, s.command.name).Found? {
          var k := Find(device.t, s.command.name).k;
          if k in device.t.rows && device.t.rows[k].rule == s.command.payload {
            post := post[i := Seen(k, s.command.payload, device.t.order)];
            if clean {
              ObservationIsCorrect(pl, device.t, touched, old(post), i, s.command.payload);
              LastMayBeInDoubt(pl, device.t.rows, touched, post);
            }
            FoundHolds(device.t, s, k);
            ok := device.t.order == policyOrder;
          }
        }
      }
      if clean {
        StageInPlace(pl, done, touched);
        StageInPlace(pl, done + {Key(pl, i)}, touched);
      }
    }

    /** Enables a prepared policy, checking it before and after. Nothing is written
        unless it is the recorded one, still disabled, and stands in its place. */
    method Activate(i: nat, ghost done: set<MKey>) returns (ok: bool)
      requires Sane() && IsNew(pl, i)
      requires clean ==> Ready() && device.t == StageTable(pl, done) && Turn(pl, post, done, i)
      modifies this`post, this`touched, device
      ensures Sane() && ForeignKept(pl, old(device.t), device.t) && old(device.history) <= device.history
      ensures if device.history == old(device.history) then device.t == old(device.t)
              else old(post[i]).Seen? && MayEnable(old(device.t), policyOrder, pl.snaps[i], old(post[i]).k)
      ensures ok ==> post[i].Seen? && device.t.order == policyOrder
                     && Holds(device.t, pl.snaps[i], post[i].k, pl.snaps[i].command.payload) && Positioned(device.t, pl.snaps[i], post[i].k)
      ensures clean ==> Stopped() && Grew(pl, old(device.history), device.history)
      ensures clean && ok ==> Ready() && device.t == StageTable(pl, done + {Key(pl, i)})
      ensures clean && old(device.link).Stable? ==> ok && device.link.Stable?
      ensures forall l :: 0 <= l < |post| && l != i ==> post[l] == old(post[l])
    {
      hide Prepared, Final, FullOrder, Only, Recorded, Grounded, Find, Touched, Step, Mix, InPhase, Keys, BeforeLiveSuccessor, EachOnce;
      hide MayEnable, ForeignKept, Holds, Positioned, Grew, RunTable, StageTable;
      var s := pl.snaps[i];
      ok := false;
      NothingLost(pl, device.t);
      if clean {
        FinalisationGoesThrough(pl, done, i);
        NewPolicyStandsInPlace(pl, done, i);
        NewPolicyStandsInPlace(pl, done + {Key(pl, i)}, i);
        ChangeIsRecorded(pl, done, i, touched, post);
        RecordedLength(pl, device.t.rows, touched, post);
        SeenKey(pl, device.t.rows, touched, post, i);
        LastMayBeInDoubt(pl, device.t.rows, touched, post);
        StageIsRunTable(pl, done, i);
        GrewNothing(pl, device.history);
      }
      touched := Touched(touched, i);
      var found := Find(device.t, s.command.name);
      if found.Found? && post[i].Seen? && found.k == post[i].k && found.k in device.t.rows && device.t.rows[found.k].rule == CreatePayload(s)
         && device.t.order == policyOrder && BeforeLiveSuccessor(device.t, s, found.k) {
        ghost var h, t0 := device.history, device.t;
        MayBeEnabled(t0, t0, s, found.k);
        FoundHolds(t0, s, found.k);
        var sent := device.Send(Put(found.k, StatusOnly(true)));
        PutKeeps(pl, i, found.k, StatusOnly(true), t0, device.t);
        if clean { GrewOnce(pl, h, device.t); }
        var again := Find(device.t, s.command.name);
        if again.Found? && again.k == post[i].k && again.k in device.t.rows && BeforeLiveSuccessor(device.t, s, again.k) {
          var rule := device.t.rows[again.k].rule;
          FoundHolds(device.t, s, again.k);
          FoundInPlace(device.t, s, again.k);
          if rule == CreatePayload(s) || rule == s.command.payload {
            post := post[i := Seen(again.k, rule, device.t.order)];
            if clean {
              ObservationIsCorrect(pl, device.t, touched, old(post), i, rule);
              LastMayBeInDoubt(pl, device.t.rows, touched, post);
            }
          }
          ok := sent && rule == s.command.payload && device.t.order == policyOrder;
        }
      }
      if clean {
        StageInPlace(pl, done, touched);
        StageInPlace(pl, done + {Key(pl, i)}, touched);
      }
    }

    /** Removes an obsolete policy. Nothing is written unless the policy and the order
        are as they were approved. */
    method DeletePolicy(i: nat, ghost done: set<MKey>) returns (ok: bool)
      requires Sane() && pl.ups <= i < |pl.snaps|
      requires clean ==> Ready() && device.t == StageTable(pl, done) && Turn(pl, post, done, i)
      modifies this`policyOrder, this`post, this`touched, device
      ensures Sane() && ForeignKept(pl, old(device.t), device.t) && old(device.history) <= device.history
      ensures if device.history == old(device.history) then device.t == old(device.t) && policyOrder == old(policyOrder)
              else MayReplace(old(device.t), old(policyOrder), pl.snaps[i], pl.snaps[i].mkey)
      ensures ok ==> device.t.order == policyOrder && Nameless(device.t, pl.snaps[i])
      ensures clean ==> Stopped() && Grew(pl, old(device.history), device.history)
      ensures clean && ok ==> Ready() && device.t == StageTable(pl, done + {Key(pl, i)})
      ensures clean && old(device.link).Stable? ==> ok && device.link.Stable?
      ensures forall l :: 0 <= l < |post| && l != i ==> post[l] == old(post[l])
    {
      hide Prepared, Final, FullOrder, Only, Recorded, Grounded, Revalidate, Find, Touched, Step, Mix, InPhase, Keys, AdvancedForDelete, EachOnce;
      hide MayReplace, ForeignKept, Nameless, Grew, RunTable, StageTable;
      var s := pl.snaps[i];
      ok := false;
      RevalidateIs(device.t, policyOrder, s);
      NothingLost(pl, device.t);
      DoneMeans(device.t, policyOrder, s);
      DeleteIsDelete(pl, i);
      if clean {
        if s.existed {
          RemovalGoesThrough(pl, done, i);
          ChangeIsRecorded(pl, done, i, touched, post);
        } else {
          AbsentPolicyStaysAbsent(pl, done, i);
          AbsentUnchanged(pl, i);
          NothingToDo(pl, done, Key(pl, i));
        }
        StageGrounded(pl, done);
        StageIsRunTable(pl, done, i);
        LastMayBeInDoubt(pl, device.t.rows, touched, post);
        GrewNothing(pl, device.history);
      }
      var now := Revalidate(device.t, policyOrder, s);
      if now == InSync {
        ok := true;
      } else if now.Present? {
        ghost var h, t0 := device.history, device.t;
        ReplaceMeans(t0, policyOrder, s, now.k);
        var sent := device.Send(Remove(now.k));
        RemoveKeeps(pl, i, now.k, t0, device.t);
        if clean { GrewOnce(pl, h, device.t); }
        touched := Touched(touched, i);
        var next := AdvancedForDelete(policyOrder, now.k);
        if sent && Find(device.t, s.command.name) == Missing && next == Some(device.t.order) {
          policyOrder := next.value;
          post := post[i := Gone(device.t.order)];
          if clean {
            AbsenceIsCorrect(pl, device.t, touched, old(post), i);
            LastMayBeInDoubt(pl, device.t.rows, touched, post);
          }
          MissingIsNameless(device.t, s);
          ok := true;
        }
      }
      if clean {
        StageInPlace(pl, done, touched);
        StageInPlace(pl, done + {Key(pl, i)}, touched);
      }
    }

    /** Creates every missing policy, bottom-up. */
    method PreparePolicies() returns (ok: bool)
      requires Sane() && (clean ==> Ready() && device.t == pl.base) && forall l: nat :: l < |post| ==> post[l] == Unobserved
      modifies this`policyOrder, this`post, this`touched, device
      ensures Sane() && Respects(pl, old(device.t), old(policyOrder), old(device.history), device.t, policyOrder, device.history)
      ensures clean ==> Stopped() && Grew(pl, old(device.history), device.history)
      ensures clean && ok ==> Ready() && device.t == StageTable(pl, {}) && forall l: nat :: AwaitsTurn(pl, post, {}, l)
      ensures clean && old(device.link).Stable? ==> ok && device.link.Stable?
    {
      hide Prepared, Final, FullOrder, Only, Recorded, Grounded, Mix, InPhase, Keys, RunTable, Grew, NextPresent, EachOnce;
      hide ForeignKept, MayCreate, MayEnable;
      if clean {
        RecordedLength(pl, device.t.rows, touched, post);
        LastMayBeInDoubt(pl, device.t.rows, touched, post);
        BaseIsPrepared(pl);
        PreparedInPlace(pl, 0, touched);
        GrewNothing(pl, device.history);
      }
      NothingLost(pl, device.t);
      var i := 0;
      ok := true;
      while ok && i < pl.ups
        invariant 0 <= i <= pl.ups && Sane()
        invariant Respects(pl, old(device.t), old(policyOrder), old(device.history), device.t, policyOrder, device.history)
        invariant clean ==> Stopped() && Grew(pl, old(device.history), device.history)
        invariant clean && ok ==> Ready() && device.t == PreparedTable(pl, i)
        invariant clean && ok ==> forall l: nat :: l < |post| ==> if l < i && IsNew(pl, l) then post[l].Seen? else post[l].Unobserved?
        invariant clean && old(device.link).Stable? ==> ok && device.link.Stable?
      {
        ghost var h, t, order := device.history, device.t, policyOrder;
        if IsNew(pl, i) {
          ok := PrepareNew(i);
          if device.history != h { CreateMeans(t, order, pl.snaps[i]); }
          RespectsTwice(pl, old(device.t), old(policyOrder), old(device.history), t, order, h, device.t, policyOrder, device.history);
          if clean { GrewTwice(pl, old(device.history), h, device.history); }
        } else if clean {
          SkippedIsPrepared(pl, i);
        }
        i := i + 1;
      }
      if clean && ok { StageBounds(pl); }
    }

    /** Finalises the policies with the given action, top-down. */
    method FinalisePolicies(action: Action, ghost done0: set<MKey>) returns (ok: bool, ghost done: set<MKey>)
      requires Sane()
      requires clean ==> Ready() && device.t == StageTable(pl, done0) && AtPhase(pl, done0, if action == Deny then 0 else 1)
      requires clean ==> UpsertKeys(pl, action, 0) !! done0 && forall l: nat :: AwaitsTurn(pl, post, done0, l)
      modifies this`policyOrder, this`post, this`touched, device
      ensures Sane() && Respects(pl, old(device.t), old(policyOrder), old(device.history), device.t, policyOrder, device.history)
      ensures clean ==> Stopped() && Grew(pl, old(device.history), device.history)
      ensures clean && ok ==> Ready() && device.t == StageTable(pl, done) && done == done0 + UpsertKeys(pl, action, 0)
      ensures clean && ok ==> AtPhase(pl, done, if action == Deny then 0 else 1) && forall l: nat :: AwaitsTurn(pl, post, done, l)
      ensures clean && old(device.link).Stable? ==> ok && device.link.Stable?
    {
      hide Prepared, Final, FullOrder, Only, Recorded, Grounded, Mix, InPhase, Keys, RunTable, Grew, AtPhase, StageTable, UpsertKeys;
      hide EachOnce, ForeignKept, MayReplace, MayEnable, Holds, Positioned;
      ghost var rank := if action == Deny then 0 else 1;
      var i := pl.ups;
      ok, done := true, done0;
      if clean {
        RunningIsStopped(pl, done0, rank, device.t, touched, post);
        GrewNothing(pl, device.history);
      }
      NothingLost(pl, device.t);
      while ok && i > 0
        invariant 0 <= i <= pl.ups && Sane()
        invariant Respects(pl, old(device.t), old(policyOrder), old(device.history), device.t, policyOrder, device.history)
        invariant clean ==> Stopped() && Grew(pl, old(device.history), device.history)
        invariant clean && ok ==> Ready() && device.t == StageTable(pl, done) && done == done0 + UpsertKeys(pl, action, i)
        invariant clean && ok ==> AtPhase(pl, done, rank) && forall l: nat :: AwaitsTurn(pl, post, done, l)
        invariant clean && old(device.link).Stable? ==> ok && device.link.Stable?
      {
        i := i - 1;
        if Payload(pl, i).action == action {
          ghost var h, t, post0 := device.history, device.t, post;
          if clean {
            NextTurn(pl, action, done0, done, i, post, device.t.rows, touched);
            PhaseGrows(pl, done, rank, i);
          }
          if IsNew(pl, i) { ok := Activate(i, done); } else { ok := UpdateExisting(i, done); }
          if device.history != h { WriteMeans(t, policyOrder, pl.snaps[i]); }
          RespectsTwice(pl, old(device.t), old(policyOrder), old(device.history), t, policyOrder, h, device.t, policyOrder, device.history);
          if clean {
            GrewTwice(pl, old(device.history), h, device.history);
            if ok { AwaitingStep(pl, post0, post, done, i); }
            done := done + {Key(pl, i)};
          }
        }
        if clean { UpsertKeysGrow(pl, action, i); }
      }
    }

    /** Deletes the obsolete policies with the given action. */
    method DeletePolicies(action: Action, ghost done0: set<MKey>) returns (ok: bool, ghost done: set<MKey>)
      requires Sane()
      requires clean ==> Ready() && device.t == StageTable(pl, done0) && AtPhase(pl, done0, if action == Deny then 2 else 0)
      requires clean ==> DeleteKeys(pl, action, |pl.snaps|) !! done0 && forall l: nat :: AwaitsTurn(pl, post, done0, l)
      modifies this`policyOrder, this`post, this`touched, device
      ensures Sane() && Respects(pl, old(device.t), old(policyOrder), old(device.history), device.t, policyOrder, device.history)
      ensures clean ==> Stopped() && Grew(pl, old(device.history), device.history)
      ensures clean && ok ==> Ready() && device.t == StageTable(pl, done) && done == done0 + DeleteKeys(pl, action, |pl.snaps|)
      ensures clean && ok ==> AtPhase(pl, done, if action == Deny then 2 else 0) && forall l: nat :: AwaitsTurn(pl, post, done, l)
      ensures clean && old(device.link).Stable? ==> ok && device.link.Stable?
    {
      hide Prepared, Final, FullOrder, Only, Recorded, Grounded, Mix, InPhase, Keys, RunTable, Grew, AtPhase, StageTable, DeleteKeys;
      hide EachOnce, ForeignKept, MayReplace, Nameless;
      ghost var rank := if action == Deny then 2 else 0;
      var i := pl.ups;
      ok, done := true, done0;
      if clean {
        RunningIsStopped(pl, done0, rank, device.t, touched, post);
        GrewNothing(pl, device.history);
      }
      NothingLost(pl, device.t);
      while ok && i < |pl.snaps|
        invariant pl.ups <= i <= |pl.snaps| && Sane()
        invariant Respects(pl, old(device.t), old(policyOrder), old(device.history), device.t, policyOrder, device.history)
        invariant clean ==> Stopped() && Grew(pl, old(device.history), device.history)
        invariant clean && ok ==> Ready() && device.t == StageTable(pl, done) && done == done0 + DeleteKeys(pl, action, i)
        invariant clean && ok ==> AtPhase(pl, done, rank) && forall l: nat :: AwaitsTurn(pl, post, done, l)
        invariant clean && old(device.link).Stable? ==> ok && device.link.Stable?
      {
        if Payload(pl, i).action == action {
          ghost var h, t, order, post0 := device.history, device.t, policyOrder, post;
          if clean {
            NextDelete(pl, action, done0, done, i, post, device.t.rows, touched);
            PhaseGrows(pl, done, rank, i);
          }
          ok := DeletePolicy(i, done);
          if device.history != h { WriteMeans(t, order, pl.snaps[i]); }
          RespectsTwice(pl, old(device.t), old(policyOrder), old(device.history), t, order, h, device.t, policyOrder, device.history);
          if clean {
            GrewTwice(pl, old(device.history), h, device.history);
            if ok { AwaitingStep(pl, post0, post, done, i); }
            done := done + {Key(pl, i)};
          }
        }
        if clean { DeleteKeysGrow(pl, action, i); }
        i := i + 1;
      }
    }

    /** Reads every command back once more. */
    method VerifyFinalState() returns (ok: bool)
      requires Sane()
      ensures ok <==> forall i :: 0 <= i < |pl.snaps| ==> CarriedOut(device.t, pl.snaps[i])
    {
      hide CarriedOut, CommandInSync, EachOnce;
      ok := true;
      for i := 0 to |pl.snaps|
        invariant ok <==> forall l :: 0 <= l < i ==> CarriedOut(device.t, pl.snaps[l])
      {
        CarriedOutIs(device.t, pl.snaps[i]);
        if !CommandInSync(device.t, pl.snaps[i]) { ok := false; }
      }
    }

    /** The whole run. Whatever the device shows, success means that every command is
        carried out, and foreign policies are as they were; nothing is written when the
        order is not the expected one. If nobody else is at work, then wherever the run
        stops, every table it has shown accepts only what the table before or after the
        run accepts, and over a connection that holds it reaches the reviewed state. */
    method Execute() returns (ok: bool)
      requires Sane() && (clean ==> Ready() && device.t == pl.base) && forall l: nat :: l < |post| ==> post[l] == Unobserved
      modifies this`policyOrder, this`post, this`touched, device
      ensures Sane() && ForeignKept(pl, old(device.t), device.t)
      ensures old(device.t).order != old(policyOrder) ==> device.history == old(device.history) && device.t == old(device.t)
      ensures ok ==> forall i :: 0 <= i < |pl.snaps| ==> CarriedOut(device.t, pl.snaps[i])
      ensures clean ==> Stopped() && Grew(pl, old(device.history), device.history)
      ensures clean && DenyTurnsWhole(pl) ==> forall j, p: Packet :: |old(device.history)| <= j < |device.history| ==>
                Accepts(device.history[j], p) ==> Accepts(pl.base, p) || Accepts(FinalTable(pl), p)
      ensures clean && ok ==> Ready() && device.t == FinalTable(pl)
      ensures clean && old(device.link).Stable? ==> ok && device.link.Stable?
    {
      hide Prepared, Final, FullOrder, Only, Recorded, Grounded, Mix, InPhase, Keys, RunTable, AtPhase, StageTable, UpsertKeys, DeleteKeys;
      hide EachOnce, ForeignKept, CarriedOut, Respects;
      if clean { PhasesPartition(pl); }
      ghost var done: set<MKey> := {};
      ghost var t0, order0, h0 := device.t, policyOrder, device.history;
      ok := PreparePolicies();
      ghost var t, order, h := device.t, policyOrder, device.history;
      ghost var d1, d2 := UpsertKeys(pl, Deny, 0), DeleteKeys(pl, Accept, |pl.snaps|);
      ghost var d3, d4 := UpsertKeys(pl, Accept, 0), DeleteKeys(pl, Deny, |pl.snaps|);
      if ok {
        ok, done := FinalisePolicies(Deny, done);
        RespectsTwice(pl, t0, order0, h0, t, order, h, device.t, policyOrder, device.history);
        if clean { GrewTwice(pl, h0, h, device.history); }
        t, order, h := device.t, policyOrder, device.history;
        assert clean && ok ==> done == d1;
      }
      if ok {
        ok, done := DeletePolicies(Accept, done);
        RespectsTwice(pl, t0, order0, h0, t, order, h, device.t, policyOrder, device.history);
        if clean { GrewTwice(pl, h0, h, device.history); }
        t, order, h := device.t, policyOrder, device.history;
        assert clean && ok ==> done == d1 + d2;
      }
      if ok {
        ok, done := FinalisePolicies(Accept, done);
        RespectsTwice(pl, t0, order0, h0, t, order, h, device.t, policyOrder, device.history);
        if clean { GrewTwice(pl, h0, h, device.history); }
        t, order, h := device.t, policyOrder, device.history;
        assert clean && ok ==> done == d1 + d2 + d3;
      }
      if ok {
        ok, done := DeletePolicies(Deny, done);
        RespectsTwice(pl, t0, order0, h0, t, order, h, device.t, policyOrder, device.history);
        if clean { GrewTwice(pl, h0, h, device.history); }
        assert clean && ok ==> done == d1 + d2 + d3 + d4;
      }
      if ok {
        if clean {
          StageBounds(pl);
          forall i | 0 <= i < |pl.snaps| ensures CarriedOut(FinalTable(pl), pl.snaps[i]) {
            FinalTableInSync(pl, i);
            CarriedOutIs(device.t, pl.snaps[i]);
          }
        }
        ok := VerifyFinalState();
      }
      RespectMeans(pl, t0, order0, h0, device.t, policyOrder, device.history);
      if clean { HistoryIsSafe(pl, h0, device.history); }
    }
  }

  /** A finalising or deleting step may be taken for command `i`. */
  ghost predicate Turn(pl: Plan, post: seq<Post>, done: set<MKey>, i: nat)
    requires i < |pl.snaps| == |pl.ids| == |post| && PlanOk(pl)
  {
    && Key(pl, i) !in done && done <= Elements(Keys(pl)) && InPhase(pl, done) && InPhase(pl, done + {Key(pl, i)})
    && if IsNew(pl, i) then post[i].Seen? else post[i].Unobserved?
  }

  lemma StageIsRunTable(pl: Plan, done: set<MKey>, i: nat)
    requires PlanOk(pl) && i < |pl.snaps| && InPhase(pl, done) && InPhase(pl, done + {Key(pl, i)})
    ensures RunTable(pl, StageTable(pl, done)) && RunTable(pl, StageTable(pl, done + {Key(pl, i)}))
  {
    hide StageTable, InPhase;
  }

  // ---------------------------------------------------------------- any device

  /** From one point of a run to another: foreign policies are as they were, and
      nothing at all is written unless the order was the expected one. */
  ghost predicate Respects(pl: Plan, t0: Table, order0: seq<MKey>, h0: seq<Table>, t: Table, order: seq<MKey>, h: seq<Table>) {
    && ForeignKept(pl, t0, t) && h0 <= h
    && (h == h0 ==> t == t0 && order == order0)
    && (t0.order != order0 ==> h == h0)
  }

  lemma RespectsTwice(pl: Plan, t0: Table, order0: seq<MKey>, h0: seq<Table>, t1: Table, order1: seq<MKey>, h1: seq<Table>,
                      t2: Table, order2: seq<MKey>, h2: seq<Table>)
    requires Respects(pl, t0, order0, h0, t1, order1, h1) && Respects(pl, t1, order1, h1, t2, order2, h2)
    ensures Respects(pl, t0, order0, h0, t2, order2, h2)
  {
    KeptTwice(pl, t0, t1, t2);
  }

  lemma RespectMeans(pl: Plan, t0: Table, order0: seq<MKey>, h0: seq<Table>, t: Table, order: seq<MKey>, h: seq<Table>)
    requires Respects(pl, t0, order0, h0, t, order, h)
    ensures ForeignKept(pl, t0, t) && (t0.order != order0 ==> h == h0 && t == t0)
  {
  }

  lemma NothingLost(pl: Plan, t: Table)
    ensures ForeignKept(pl, t, t)
  {
  }

  lemma CreateKeeps(pl: Plan, i: nat, was: Table, now: Table)
    requires i < |pl.snaps| == |pl.ids| && (now == was || now == Step(was, CreateWrite(pl, i)))
    ensures ForeignKept(pl, was, now)
  {
    OwnWriteKeeps(pl, was, now, CreateWrite(pl, i));
  }

  lemma MoveKeeps(pl: Plan, k: MKey, succ: MKey, start: Table, was: Table, now: Table)
    requires ForeignKept(pl, start, was) && (now == was || now == Step(was, MoveBefore(k, succ)))
    ensures ForeignKept(pl, start, now) && now.rows == was.rows
  {
    OwnWriteKeeps(pl, was, now, MoveBefore(k, succ));
    KeptTwice(pl, start, was, now);
  }

  lemma PutKeeps(pl: Plan, i: nat, k: MKey, patch: Patch, was: Table, now: Table)
    requires i < |pl.snaps| && Bears(was, k, Name(pl, i)) && (now == was || now == Step(was, Put(k, patch)))
    ensures ForeignKept(pl, was, now)
  {
    assert pl.snaps[i] in pl.snaps;
    OwnWriteKeeps(pl, was, now, Put(k, patch));
  }

  lemma RemoveKeeps(pl: Plan, i: nat, k: MKey, was: Table, now: Table)
    requires i < |pl.snaps| && Bears(was, k, Name(pl, i)) && (now == was || now == Step(was, Remove(k)))
    ensures ForeignKept(pl, was, now)
  {
    assert pl.snaps[i] in pl.snaps;
    OwnWriteKeeps(pl, was, now, Remove(k));
  }

  lemma CreateMeans(t: Table, expected: seq<MKey>, s: Snapshot)
    requires MayCreate(t, expected, s)
    ensures t.order == expected
  {
  }

  lemma ReplaceMeans(t: Table, expected: seq<MKey>, s: Snapshot, k: MKey)
    requires MayReplace(t, expected, s, k)
    ensures t.order == expected && k == s.mkey && Bears(t, k, s.command.name)
  {
  }

  lemma WriteMeans(t: Table, expected: seq<MKey>, s: Snapshot)
    requires MayReplace(t, expected, s, s.mkey) || exists k: MKey :: MayEnable(t, expected, s, k)
    ensures t.order == expected
  {
  }

  lemma DoneMeans(t: Table, expected: seq<MKey>, s: Snapshot)
    ensures IsDone(t, expected, s) ==> t.order == expected
    ensures IsDone(t, expected, s) && s.command.operation == Delete ==> Nameless(t, s)
    ensures IsDone(t, expected, s) && s.command.operation != Delete ==> exists k: MKey :: Holds(t, s, k, s.command.payload)
  {
  }

  lemma DeleteIsDelete(pl: Plan, i: nat)
    requires PlanOk(pl) && i < |pl.snaps|
    ensures pl.snaps[i].command.operation == Delete <==> i >= pl.ups
  {
    assert SnapshotOk(pl, i);
  }

  lemma FoundHolds(t: Table, s: Snapshot, k: MKey)
    requires EachOnce(t) && Find(t, s.command.name) == Found(k)
    ensures Bears(t, k, s.command.name) && Holds(t, s, k, t.rows[k].rule)
  {
    hide Find;
    FindIs(t, s.command.name);
  }

  lemma FoundInPlace(t: Table, s: Snapshot, k: MKey)
    requires EachOnce(t) && Find(t, s.command.name) == Found(k) && BeforeLiveSuccessor(t, s, k)
    ensures Positioned(t, s, k)
  {
    hide Find, BeforeLiveSuccessor, Positioned;
    FindIs(t, s.command.name);
    ListedIfThere(t, k, s.command.name);
    PositionedIs(t, s, k);
  }

  /** A prepared policy is found as prepared, before its successor. */
  lemma MayBeEnabled(t: Table, now: Table, s: Snapshot, k: MKey)
    requires EachOnce(t) && EachOnce(now) && now.rows == t.rows && Find(t, s.command.name) == Found(k)
    requires k in t.rows && t.rows[k].rule == CreatePayload(s) && BeforeLiveSuccessor(now, s, k)
    ensures MayEnable(now, now.order, s, k)
  {
    hide Find, BeforeLiveSuccessor, Positioned;
    FindIs(t, s.command.name);
    assert forall l: MKey :: Bears(now, l, s.command.name) <==> Bears(t, l, s.command.name);
    ListedIfThere(now, k, s.command.name);
    PositionedIs(now, s, k);
  }

  lemma MissingIsNameless(t: Table, s: Snapshot)
    requires EachOnce(t) && Find(t, s.command.name) == Missing
    ensures Nameless(t, s)
  {
    FindIs(t, s.command.name);
  }

  lemma HistoryIsSafe(pl: Plan, h0: seq<Table>, h1: seq<Table>)
    requires PlanOk(pl) && Grew(pl, h0, h1)
    ensures DenyTurnsWhole(pl) ==> forall j, p: Packet :: |h0| <= j < |h1| ==>
              Accepts(h1[j], p) ==> Accepts(pl.base, p) || Accepts(FinalTable(pl), p)
  {
    if DenyTurnsWhole(pl) {
      forall j, p: Packet | |h0| <= j < |h1|
        ensures Accepts(h1[j], p) ==> Accepts(pl.base, p) || Accepts(FinalTable(pl), p)
      {
        assert IsRunTableAt(pl, h1, j);
        EveryRunTableIsSafe(pl, h1[j], p);
      }
    }
  }
}
