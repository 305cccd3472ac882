/** A run whose rollback briefly accepts a packet that is accepted neither before
    nor after: the DELETE of a DENY was sent, but never reached the device. */
module RollbackExample {
  import opened Options
  import opened PolicyTables
  import opened PolicyOrder
  import opened DeploymentPlans
  import opened DeploymentRecords
  import opened RollbackTables
  import opened RollbackPlans

  const GUARD: Rule := Rule(true, Deny, {7}, map[])
  const OPENING: Rule := Rule(true, Accept, {7}, map[])
  const REST: Rule := Rule(true, Deny, {}, map[])

  /** A DENY above the anchor is to be replaced by an ACCEPT. */
  function Before(): Table {
    Table([0, 1], map[0 := Row("guard", GUARD), 1 := Row("anchor", REST)])
  }

  function Example(): Plan {
    Plan(Before(),
         [Snapshot(Command(Upsert, "opening", OPENING, "anchor"), false, 0, OPENING, None, None, Some(1)),
          Snapshot(Command(Delete, "guard", GUARD, ""), true, 0, GUARD, Some(1), None, None)],
         [2, 3], 1, 1)
  }

  /** The ACCEPT is active, and so is the DENY whose DELETE was lost. */
  function StoppedAt(): Table {
    Table([0, 2, 1], map[0 := Row("guard", GUARD), 1 := Row("anchor", REST), 2 := Row("opening", OPENING)])
  }

  const OBSERVED: seq<Post> := [Seen(2, OPENING, [0, 2, 1]), Unobserved]

  lemma ThreeKeys(a: MKey, b: MKey, c: MKey)
    requires a != b && a != c && b != c
    ensures Distinct([a, b, c]) && Elements([a, b, c]) == {a, b, c}
    ensures Pos([a, b, c], a) == 0 && Pos([a, b, c], b) == 1 && Pos([a, b, c], c) == 2
    ensures forall z :: z in [a, b, c] <==> z in {a, b, c}
  {
    var s := [a, b, c];
    PosIs(s, 0);
    PosIs(s, 1);
    PosIs(s, 2);
  }

  lemma TwoKeys(a: MKey, b: MKey)
    requires a != b
    ensures Distinct([a, b]) && Elements([a, b]) == {a, b} && Pos([a, b], a) == 0 && Pos([a, b], b) == 1
    ensures forall z :: z in [a, b] <==> z in {a, b}
  {
    var s := [a, b];
    PosIs(s, 0);
    PosIs(s, 1);
  }

  lemma ExampleIsPlan()
    ensures PlanOk(Example())
  {
    var pl := Example();
    TwoKeys(0, 1);
    forall k, l ensures NamesApart(pl.base.rows, k, l) { }
    forall i: nat ensures SnapshotOk(pl, i) { }
    forall i: nat, j: nat ensures CommandsApart(pl, i, j) { }
    forall i: nat ensures Chained(pl, i) && NotTheAnchor(pl, i) { }
    forall i: nat ensures InReviewedOrder(pl, View(pl.base.order, DeletedKeys(pl)), i, 0) { }
  }

  lemma StopIsGrounded()
    ensures TableOk(StoppedAt()) && Grounded(Example(), StoppedAt())
  {
    var pl, t := Example(), StoppedAt();
    TwoKeys(0, 1);
    ThreeKeys(0, 2, 1);
    forall k, l ensures NamesApart(t.rows, k, l) { }
    assert Keys(pl) == [2, 0];
    TwoKeys(2, 0);
    forall k | k !in Keys(pl) ensures SameRow(t.rows, pl.base.rows, k) { }
  }

  lemma StopIsClean()
    ensures CleanStop(Example(), StoppedAt(), [0, 1], OBSERVED)
  {
    var pl, t, touched := Example(), StoppedAt(), [0, 1];
    ExampleIsPlan();
    TwoKeys(0, 1);
    ThreeKeys(0, 2, 1);
    StopIsGrounded();
    hide TableOk, Grounded, PlanOk;
    assert TouchedKeys(pl, touched) == {2, 0} by {
      assert Key(pl, 0) == 2 && Key(pl, 1) == 0;
    }
    assert OrderKept(pl, {2, 0}, [0, 2, 1]);
    forall i: nat ensures ItemTouched(pl, t.rows, touched, i) && ItemState(pl, t.rows, i) { }
    forall i: nat ensures PostOk(pl, t.rows, touched, OBSERVED, i) { }
    forall j: nat ensures InRange(pl, touched, j) { }
    forall j: nat | j < 1 ensures DeleteDone(pl, t.rows, touched, j) { }
    forall m: nat ensures InPlace(pl, t, touched, m) { }
  }

  lemma DeleteIsTheOnlyOne()
    ensures |Example().snaps| == |Example().ids|
    ensures var u := UndoOf(Example(), StoppedAt(), [0, 1]); u.base == Before() && u.start == StoppedAt() && u.todo == [0]
  {
    var pl, touched := Example(), [0, 1];
    assert touched[..1] == [0] && touched[..1][..0] == [];
    assert Chosen(pl, [], DELETED) == [];
    assert Chosen(pl, [0], DELETED) == [];
    assert Chosen(pl, touched, DELETED) == [1];
  }

  /** The run stops cleanly and its rollback ends in the old table; but on its
      way the rollback moves the DENY below the ACCEPT. */
  lemma UnappliedDeleteLetsPacketEscape()
    ensures CleanStop(Example(), StoppedAt(), [0, 1], OBSERVED)
    ensures Escapes(UndoOf(Example(), StoppedAt(), [0, 1]), 7)
    ensures !Accepts(Before(), 7) && !Accepts(StoppedAt(), 7)
  {
    StopIsClean();
    NothingAtTheEnds();
    PacketEscapes();
  }

  lemma NothingAtTheEnds()
    ensures !Accepts(Before(), 7) && !Accepts(StoppedAt(), 7)
  {
    TwoKeys(0, 1);
    ThreeKeys(0, 2, 1);
  }

  lemma PacketEscapes()
    ensures |Example().snaps| == |Example().ids| && Escapes(UndoOf(Example(), StoppedAt(), [0, 1]), 7)
  {
    hide Escapes, Chosen, Keys;
    DeleteIsTheOnlyOne();
    GuardSinks(UndoOf(Example(), StoppedAt(), [0, 1]));
  }

  lemma GuardSinks(u: Undo)
    requires u.base == Before() && u.start == StoppedAt() && u.todo == [0]
    ensures Escapes(u, 7)
  {
    var t := StoppedAt();
    TwoKeys(0, 1);
    ThreeKeys(0, 2, 1);
    assert Without(t.order, 0) == [2, 1];
    TwoKeys(2, 1);
    assert [2, 1][0..1] == [2] && [2][0] == 2;
    assert AcceptsIn([2], t.rows, 7);
  }
}
