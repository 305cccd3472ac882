/** What holds of every table of a rollback, and of the last one. */
module RollbackSafety {
  import opened PolicyTables
  import opened PolicyOrder
  import opened Repositioning
  import opened DeploymentPlans
  import opened DeploymentSafety
  import opened DeploymentSteps
  import opened Devices
  import opened RollbackTables

  /** The order of the table once the repositioning passes are over. */
  function Reordered(u: Undo): seq<MKey> {
    Passes(u.base.order, Laid(u), u.todo, |u.todo|)
  }

  lemma {:induction false} PassKeepsSinking(u: Undo, s: seq<MKey>, todo: seq<MKey>)
    requires UndoOk(u) && Sinking(u, s) && Elements(todo) <= Moved(u)
    ensures Sinking(u, Pass(u.base.order, s, todo))
    decreases |todo|
  {
    hide Sinking, UndoOk, RestoredTo;
    if todo != [] {
      assert todo[0] in Elements(todo) && Elements(todo[1..]) <= Elements(todo);
      SinkStep(u, s, todo[0]);
      PassKeepsSinking(u, RestoredTo(u.base.order, s, todo[0]), todo[1..]);
    }
  }

  lemma {:induction false} PassesKeepSinking(u: Undo, s: seq<MKey>, n: nat)
    requires UndoOk(u) && Sinking(u, s)
    ensures Sinking(u, Passes(u.base.order, s, u.todo, n))
    decreases n
  {
    hide Sinking, UndoOk;
    if n > 0 {
      PassKeepsSinking(u, s, u.todo);
      PassesKeepSinking(u, Pass(u.base.order, s, u.todo), n - 1);
    }
  }

  lemma {:induction false} ManyElements(s: seq<MKey>)
    requires Distinct(s)
    ensures |Elements(s)| == |s|
  {
    if s != [] {
      TailDistinct(s);
      ManyElements(s[1..]);
    } else {
      assert Elements(s) == {};
    }
  }

  lemma ReorderedFacts(u: Undo)
    requires UndoOk(u)
    ensures Sinking(u, Reordered(u)) && Distinct(Reordered(u)) && Elements(Reordered(u)) == AllKeys(u)
    ensures Only(Reordered(u), u.base.rows.Keys) == u.base.order
    ensures forall i: nat :: Concerned(u.base.order, Moved(u), i) ==> LinkedAt(u.base.order, Reordered(u), i)
  {
    hide Pos, Only, Passes;
    LaidIsSinking(u);
    PassesKeepSinking(u, Laid(u), |u.todo|);
    ManyElements(u.todo);
    RepositioningConverges(u.base.order, Moved(u), Laid(u), u.todo, |u.todo|);
  }

  // ---------------------------------------------------------------- undoing the changes

  function UndoRows(u: Undo, done: set<MKey>): map<MKey, Row> {
    Mix(Revived(u), u.base.rows, done)
  }

  /** The table once the changes of the keys in `done` are undone. */
  function UndoTable(u: Undo, done: set<MKey>): Table {
    Table(Only(Reordered(u), UndoRows(u, done).Keys), UndoRows(u, done))
  }

  /** Baseline DENYs are restored and new ACCEPTs removed, then baseline ACCEPTs
      are restored, and new DENYs go last. */
  function UndoStage(u: Undo, k: MKey): Stage
    requires k in AllKeys(u)
  {
    if k in u.base.rows then (if u.base.rows[k].rule.action == Deny then Restricting else Crossing)
    else (if u.start.rows[k].rule.action == Deny then Permitting else Restricting)
  }

  function UndoStages(u: Undo): map<MKey, Stage> {
    map k | k in AllKeys(u) :: UndoStage(u, k)
  }

  predicate KeepsPassed(u: Undo, k: MKey) {
    k in u.base.rows && k in u.start.rows && u.base.rows[k] != u.start.rows[k]
      && u.base.rows[k].rule.action == Accept && u.start.rows[k].rule.action == Deny
    ==> u.start.rows[k].rule.packets <= u.base.rows[k].rule.packets
  }

  /** No update that turned an ACCEPT into a DENY has begun to match a packet. */
  ghost predicate AcceptTurnedWhole(u: Undo) {
    forall k :: KeepsPassed(u, k)
  }

  lemma UndoRowStep(u: Undo, k: MKey)
    requires UndoOk(u) && KeepsPassed(u, k) && k in AllKeys(u) && Changed(Revived(u), u.base.rows, k)
    ensures RowStepAllowed(Revived(u), u.base.rows, UndoStage(u, k), k)
  {
    assert RowUndoable(u, k);
    if k !in u.start.rows { assert k in Elements(u.todo); }
  }

  lemma UndoIsWellStaged(u: Undo)
    requires UndoOk(u) && AcceptTurnedWhole(u)
    ensures WellStaged(Reordered(u), Revived(u), u.base.rows, UndoStages(u))
  {
    hide Reordered, UndoOk, RowStepAllowed, UndoStage;
    forall k | k in Reordered(u) && Changed(Revived(u), u.base.rows, k)
      ensures k in UndoStages(u) && RowStepAllowed(Revived(u), u.base.rows, UndoStages(u)[k], k)
    {
      assert KeepsPassed(u, k);
      UndoRowStep(u, k);
    }
  }

  ghost predicate UndoInPhase(u: Undo, done: set<MKey>) {
    StagesInOrder(Reordered(u), Revived(u), u.base.rows, UndoStages(u), done)
  }

  lemma BaseAnswers(u: Undo, p: Packet)
    requires UndoOk(u)
    ensures AcceptsIn(Reordered(u), u.base.rows, p) == Accepts(u.base, p)
  {
    hide Reordered, Pos;
    ReorderedFacts(u);
    AcceptsByOrder(Reordered(u), u.base.rows, p);
  }

  lemma UndoIsSafe(u: Undo, done: set<MKey>, p: Packet)
    requires UndoOk(u) && AcceptTurnedWhole(u) && UndoInPhase(u, done)
    ensures Accepts(UndoTable(u, done), p) ==> Accepts(u.start, p) || Accepts(u.base, p) || Escapes(u, p)
  {
    hide Pos, Only, Reordered, Escapes, UndoOk, Sinking, Mix, WellStaged, StagesInOrder, AcceptsIn, Accepts;
    ReorderedFacts(u);
    UndoIsWellStaged(u);
    StagedRunIsSafe(Reordered(u), Revived(u), u.base.rows, UndoStages(u), done, p);
    AcceptsByOrder(Reordered(u), UndoRows(u, done), p);
    SinkingIsSafe(u, Reordered(u), p);
    BaseAnswers(u, p);
  }

  /** The tables a rollback may show. */
  ghost predicate RollbackTable(u: Undo, t: Table) {
    || (exists m: nat :: m <= |u.todo| && t == RevivedTable(u, m))
    || (exists s: seq<MKey> :: Sinking(u, s) && t == Table(s, Revived(u)))
    || (exists done: set<MKey> :: UndoInPhase(u, done) && t == UndoTable(u, done))
  }

  /** Every table of a rollback accepts only what its first or last table accepts,
      or a packet that escapes. */
  lemma EveryRollbackTableIsSafe(u: Undo, t: Table, p: Packet)
    requires UndoOk(u) && AcceptTurnedWhole(u) && RollbackTable(u, t)
    ensures Accepts(t, p) ==> Accepts(u.start, p) || Accepts(u.base, p) || Escapes(u, p)
  {
    hide UndoOk, Escapes, Sinking, UndoInPhase, AcceptTurnedWhole, AcceptsIn;
    if m: nat :| m <= |u.todo| && t == RevivedTable(u, m) {
      RevivingIsHarmless(u, m, p);
    } else if s: seq<MKey> :| Sinking(u, s) && t == Table(s, Revived(u)) {
      SinkingIsSafe(u, s, p);
    } else {
      var done: set<MKey> :| UndoInPhase(u, done) && t == UndoTable(u, done);
      UndoIsSafe(u, done, p);
    }
  }

  lemma UndoStarts(u: Undo)
    requires UndoOk(u)
    ensures UndoTable(u, {}) == Table(Reordered(u), Revived(u))
  {
    hide Pos, Only, Reordered, Sinking;
    ReorderedFacts(u);
    assert UndoRows(u, {}) == Revived(u);
    forall k | k in Reordered(u) ensures k in Revived(u) { assert k in Elements(Reordered(u)); }
    OnlyAll(Reordered(u), Revived(u).Keys);
  }

  /** Once every change is undone the table is the one the snapshot saw. */
  lemma UndoEnds(u: Undo, done: set<MKey>)
    requires UndoOk(u)
    requires forall k :: k in AllKeys(u) && Changed(Revived(u), u.base.rows, k) ==> k in done
    ensures UndoTable(u, done) == u.base
  {
    hide Pos, Only, Reordered, Sinking, UndoOk;
    ReorderedFacts(u);
    assert UndoRows(u, done) == u.base.rows;
  }

  // ---------------------------------------------------------------- names

  function NameOf(u: Undo, k: MKey): string
    requires k in AllKeys(u)
  {
    if k in u.base.rows then u.base.rows[k].name else u.start.rows[k].name
  }

  predicate NamedAs(u: Undo, rows: map<MKey, Row>, k: MKey) {
    k in rows ==> k in AllKeys(u) && rows[k].name == NameOf(u, k)
  }

  lemma NamesStayApart(u: Undo, rows: map<MKey, Row>, k: MKey, l: MKey)
    requires UndoOk(u) && NamedAs(u, rows, k) && NamedAs(u, rows, l)
    ensures NamesApart(rows, k, l)
  {
    assert NamesApart(u.base.rows, k, l) && NamesApart(u.start.rows, k, l);
    assert KeepsName(u, k) && KeepsName(u, l) && NewNameIsFree(u, k, l) && NewNameIsFree(u, l, k);
  }

  lemma NamedTableOk(u: Undo, t: Table)
    requires UndoOk(u) && Distinct(t.order) && Elements(t.order) == t.rows.Keys
    requires forall k :: NamedAs(u, t.rows, k)
    ensures TableOk(t)
  {
    forall k, l ensures NamesApart(t.rows, k, l) {
      assert NamedAs(u, t.rows, k) && NamedAs(u, t.rows, l);
      NamesStayApart(u, t.rows, k, l);
    }
  }

  lemma RevivedTableOk(u: Undo, m: nat)
    requires UndoOk(u) && m <= |u.todo|
    ensures TableOk(RevivedTable(u, m))
  {
    hide Pos, Only;
    RevivedFacts(u, m);
    forall k ensures NamedAs(u, RevivedRows(u, m), k) { assert KeepsName(u, k); }
    NamedTableOk(u, RevivedTable(u, m));
  }

  lemma RevivedNames(u: Undo, k: MKey)
    requires UndoOk(u)
    ensures NamedAs(u, Revived(u), k)
  {
    assert KeepsName(u, k);
  }

  lemma PassTableOk(u: Undo, s: seq<MKey>)
    requires UndoOk(u) && Sinking(u, s)
    ensures TableOk(Table(s, Revived(u)))
  {
    hide Pos, Only;
    forall k ensures NamedAs(u, Revived(u), k) { RevivedNames(u, k); }
    NamedTableOk(u, Table(s, Revived(u)));
  }

  lemma UndoTableOk(u: Undo, done: set<MKey>)
    requires UndoOk(u)
    ensures TableOk(UndoTable(u, done))
  {
    hide Pos, Only, Reordered;
    ReorderedFacts(u);
    OnlyFacts(Reordered(u), UndoRows(u, done).Keys);
    forall k ensures NamedAs(u, UndoRows(u, done), k) { RevivedNames(u, k); }
    forall k | k in UndoRows(u, done) ensures k in UndoTable(u, done).order {
      assert k in Elements(Reordered(u));
    }
    NamedTableOk(u, UndoTable(u, done));
  }

  // ---------------------------------------------------------------- the writes

  /** Restoring or enabling a policy. */
  lemma UndoPutStep(u: Undo, done: set<MKey>, k: MKey, patch: Patch)
    requires UndoOk(u) && k in u.base.rows && k !in done
    requires k in u.start.rows ==> patch == Whole(u.base.rows[k].rule)
    requires k !in u.start.rows ==> patch == StatusOnly(true)
    ensures Step(UndoTable(u, done), Put(k, patch)) == UndoTable(u, done + {k})
  {
    hide Pos, Only, Reordered;
    var a, b := UndoTable(u, done), UndoTable(u, done + {k});
    assert KeepsName(u, k);
    if k !in u.start.rows { assert k in Elements(u.todo); }
    assert b.rows == a.rows[k := u.base.rows[k]];
    assert a.rows.Keys == b.rows.Keys;
  }

  lemma UndoRemoveStep(u: Undo, done: set<MKey>, k: MKey)
    requires UndoOk(u) && k !in u.base.rows && k in u.start.rows && k !in done
    ensures Step(UndoTable(u, done), Remove(k)) == UndoTable(u, done + {k})
  {
    hide Pos, Only, Reordered;
    var a, b := UndoTable(u, done), UndoTable(u, done + {k});
    assert b.rows == a.rows - {k};
    ReorderedFacts(u);
    assert k in Elements(Reordered(u));
    OnlyLess(Reordered(u), a.rows.Keys, k);
  }

  lemma UndoNothing(u: Undo, done: set<MKey>, k: MKey)
    requires UndoOk(u) && !Changed(Revived(u), u.base.rows, k)
    ensures UndoTable(u, done + {k}) == UndoTable(u, done)
  {
    assert UndoRows(u, done + {k}) == UndoRows(u, done);
  }

  /** A recreated policy is already where its activation wants to move it. */
  lemma AlreadyInPlace(u: Undo, done: set<MKey>, k: MKey)
    requires UndoOk(u) && k in u.todo
    ensures RestoredTo(u.base.order, UndoTable(u, done).order, k) == UndoTable(u, done).order
  {
    hide Pos, Only, Reordered, MovedBefore, MovedAfter, UndoRows, UndoOk, Sinking;
    TodoInBase(u, k);
    ReorderedFacts(u);
    var base, m, keys := u.base.order, Reordered(u), UndoRows(u, done).Keys;
    KeysStay(u, done);
    var j := Pos(base, k);
    if j + 1 < |base| {
      assert Concerned(base, Moved(u), j);
      assert LinkedAt(base, m, j);
      OnlyLinked(m, keys, base[j], base[j + 1]);
      OnlyFacts(m, keys);
      MoveToOwnPlace(Only(m, keys), base[j], base[j + 1]);
    } else if j > 0 {
      assert Concerned(base, Moved(u), j - 1);
      assert LinkedAt(base, m, j - 1);
      OnlyLinked(m, keys, base[j - 1], base[j]);
      OnlyFacts(m, keys);
      MoveToOwnPlace(Only(m, keys), base[j - 1], base[j]);
    }
  }

  lemma TodoInBase(u: Undo, k: MKey)
    requires UndoOk(u) && k in u.todo
    ensures k in u.base.order && k in Moved(u) && Distinct(u.base.order)
  {
    assert k in Elements(u.todo);
    BaseKeys(u, k);
  }

  lemma KeysStay(u: Undo, done: set<MKey>)
    requires UndoOk(u)
    ensures forall i :: 0 <= i < |u.base.order| ==> u.base.order[i] in UndoRows(u, done).Keys
  {
    forall i | 0 <= i < |u.base.order| ensures u.base.order[i] in UndoRows(u, done).Keys {
      BaseKeys(u, u.base.order[i]);
    }
  }

  /** In the saved order itself no policy has anywhere to go. */
  lemma RestoredStays(base: seq<MKey>, k: MKey)
    requires Distinct(base) && k in base
    ensures RestoredTo(base, base, k) == base
  {
    hide Pos, MovedBefore, MovedAfter;
    var j := Pos(base, k);
    if j + 1 < |base| {
      PosIs(base, j + 1);
      MoveToOwnPlace(base, base[j], base[j + 1]);
    } else if j > 0 {
      PosIs(base, j - 1);
      MoveToOwnPlace(base, base[j - 1], base[j]);
    }
  }
}
