/** Undoing a stopped run: the tables a rollback passes through between the
    table it starts from and the table of the snapshot. */
module RollbackTables {
  import opened Options
  import opened PolicyTables
  import opened PolicyOrder
  import opened Repositioning
  import opened DeploymentPlans
  import opened DeploymentSafety
  import opened DeploymentSteps
  import opened Devices

  /** `start` is the table the run left behind; `todo` are the keys of the
      policies it deleted, latest first. Only the first of them may turn out not
      to be deleted after all. */
  datatype Undo = Undo(base: Table, start: Table, anchor: MKey, todo: seq<MKey>)

  function Off(row: Row): Row {
    row.(rule := row.rule.(enabled := false))
  }

  function AllKeys(u: Undo): set<MKey> {
    u.start.rows.Keys + u.base.rows.Keys
  }

  /** The rows once every deleted policy is recreated, disabled. */
  function Revived(u: Undo): map<MKey, Row> {
    map k | k in AllKeys(u) :: if k in u.start.rows then u.start.rows[k] else Off(u.base.rows[k])
  }

  /** The recreated policies among the first `m`, at the end of the table. */
  function RevivedOrder(u: Undo, m: nat): seq<MKey>
    requires m <= |u.todo|
  {
    u.start.order + View(u.todo[..m], u.start.rows.Keys)
  }

  function RevivedRows(u: Undo, m: nat): map<MKey, Row>
    requires m <= |u.todo|
  {
    map k | k in AllKeys(u) && (k in u.start.rows || k in u.todo[..m])
      :: if k in u.start.rows then u.start.rows[k] else Off(u.base.rows[k])
  }

  function RevivedTable(u: Undo, m: nat): Table
    requires m <= |u.todo|
  {
    Table(RevivedOrder(u, m), RevivedRows(u, m))
  }

  /** The policy of an unapplied DELETE. */
  predicate Lingers(u: Undo) {
    u.todo != [] && u.todo[0] in u.start.rows
  }

  predicate KeepsName(u: Undo, k: MKey) {
    k in u.base.rows && k in u.start.rows ==> u.base.rows[k].name == u.start.rows[k].name
  }

  predicate NewNameIsFree(u: Undo, k: MKey, l: MKey) {
    k in u.start.rows && k !in u.base.rows && l in u.base.rows ==> u.start.rows[k].name != u.base.rows[l].name
  }

  predicate IsGone(u: Undo, j: nat) {
    0 < j < |u.todo| ==> u.todo[j] !in u.start.rows
  }

  predicate NewAboveAnchor(u: Undo, k: MKey) {
    Lingers(u) && k in u.start.rows && k !in u.base.rows ==>
      && u.anchor in u.base.rows && u.anchor in u.start.rows && u.anchor !in u.todo
      && Above(u.start.order, k, u.anchor)
  }

  /** An update between two DENYs has kept the match; the snapshot refuses others. */
  predicate RowUndoable(u: Undo, k: MKey) {
    k in u.base.rows && k in u.start.rows && u.base.rows[k] != u.start.rows[k] ==>
      var was, will := u.start.rows[k].rule, u.base.rows[k].rule;
      will.enabled && (will.action == Deny && was.action == Deny ==> was.enabled && was.packets == will.packets)
  }

  ghost predicate UndoOk(u: Undo) {
    && TableOk(u.base) && TableOk(u.start)
    && SameOrder(u.start.order, u.base.order, u.base.rows.Keys)
    && (forall k :: KeepsName(u, k))
    && (forall k, l :: NewNameIsFree(u, k, l))
    && Distinct(u.todo) && Elements(u.todo) <= u.base.rows.Keys
    && u.base.rows.Keys - u.start.rows.Keys <= Elements(u.todo)
    && (forall j: nat :: IsGone(u, j))
    && (forall k :: NewAboveAnchor(u, k))
    && (forall k :: RowUndoable(u, k))
    && (Lingers(u) ==> u.start.rows[u.todo[0]] == u.base.rows[u.todo[0]])
    && forall k :: k in u.todo ==> k in u.base.rows && u.base.rows[k].rule.enabled
  }

  // ---------------------------------------------------------------- recreating

  lemma {:induction false} OnlyPart(s: seq<MKey>, keep: set<MKey>, keep': set<MKey>)
    requires forall k :: k in s ==> (k in keep <==> k in keep')
    ensures Only(s, keep) == Only(s, keep')
  {
    if s != [] {
      assert s[0] in s && forall z :: z in s[1..] ==> z in s;
      OnlyPart(s[1..], keep, keep');
    }
  }

  lemma ViewAppend(s: seq<MKey>, k: MKey, gone: set<MKey>)
    ensures View(s + [k], gone) == if k in gone then View(s, gone) else View(s, gone) + [k]
  {
    var keep := Elements(s + [k]) - gone;
    assert forall z :: z in s ==> z in s + [k];
    OnlyAppend(s, k, keep);
    OnlyPart(s, keep, Elements(s) - gone);
    assert k in s + [k];
  }

  lemma TakeMore(u: Undo, m: nat)
    requires m < |u.todo|
    ensures u.todo[..m + 1] == u.todo[..m] + [u.todo[m]]
    ensures forall z :: z in u.todo[..m + 1] <==> z in u.todo[..m] || z == u.todo[m]
  {
    assert u.todo[..m + 1] == u.todo[..m] + [u.todo[m]];
  }

  lemma PrefixDistinct(u: Undo, m: nat)
    requires UndoOk(u) && m < |u.todo|
    ensures u.todo[m] !in u.todo[..m] && u.todo[m] in u.base.rows
    ensures u.todo[m] in u.start.rows ==> m == 0
  {
    forall i | 0 <= i < m ensures u.todo[i] != u.todo[m] { assert Apart(u.todo, i, m); }
    assert u.todo[m] in Elements(u.todo);
    assert IsGone(u, m);
  }

  /** `t` is `s` with something new at its end, or not. */
  ghost predicate Lengthens(s: seq<MKey>, t: seq<MKey>) {
    && (forall z :: z in s ==> z in t && Pos(t, z) == Pos(s, z))
    && (forall z :: z in t && z !in s ==> Pos(t, z) >= |s|)
    && |s| <= |t|
  }

  lemma LengthensOnce(s: seq<MKey>, t: seq<MKey>, k: MKey)
    requires Distinct(t) && k !in t && Lengthens(s, t)
    ensures Distinct(t + [k]) && Elements(t + [k]) == Elements(t) + {k} && Lengthens(s, t + [k])
  {
    hide Pos;
    AppendDistinct(t, k);
    forall z | z in t ensures Pos(t + [k], z) == Pos(t, z) { AppendKeepsPos(t, k, z); }
  }

  /** What holds of the table while deleted policies are being recreated. */
  lemma {:induction false} RevivedFacts(u: Undo, m: nat)
    requires UndoOk(u) && m <= |u.todo|
    ensures Distinct(RevivedOrder(u, m)) && Elements(RevivedOrder(u, m)) == RevivedRows(u, m).Keys
    ensures Lengthens(u.start.order, RevivedOrder(u, m))
    decreases m
  {
    hide *;
    if m == 0 {
      NothingRevived(u);
    } else {
      var s, k := RevivedOrder(u, m - 1), u.todo[m - 1];
      RevivedFacts(u, m - 1);
      RevivedMore(u, m - 1);
      InElements(s);
      if k !in u.start.rows { LengthensOnce(u.start.order, s, k); }
    }
  }

  lemma RevivedMore(u: Undo, m: nat)
    requires UndoOk(u) && m < |u.todo|
    ensures var k := u.todo[m];
      && RevivedOrder(u, m + 1) == (if k in u.start.rows then RevivedOrder(u, m) else RevivedOrder(u, m) + [k])
      && RevivedRows(u, m + 1).Keys == RevivedRows(u, m).Keys + (if k in u.start.rows then {} else {k})
      && (k !in u.start.rows ==> k !in RevivedRows(u, m))
  {
    hide Pos, Only, View;
    TakeMore(u, m);
    PrefixDistinct(u, m);
    ViewAppend(u.todo[..m], u.todo[m], u.start.rows.Keys);
  }

  lemma NothingRevived(u: Undo)
    requires UndoOk(u)
    ensures RevivedOrder(u, 0) == u.start.order && RevivedRows(u, 0) == u.start.rows
    ensures Distinct(u.start.order) && Elements(u.start.order) == u.start.rows.Keys && Lengthens(u.start.order, u.start.order)
  {
    assert u.todo[..0] == [];
  }

  lemma ReviveStep(u: Undo, m: nat)
    requires UndoOk(u) && m < |u.todo| && u.todo[m] !in u.start.rows
    ensures Step(RevivedTable(u, m), Create(u.todo[m], Off(u.base.rows[u.todo[m]]))) == RevivedTable(u, m + 1)
  {
    hide View, UndoOk;
    TakeMore(u, m);
    PrefixDistinct(u, m);
    ViewAppend(u.todo[..m], u.todo[m], u.start.rows.Keys);
    assert RevivedRows(u, m + 1) == RevivedRows(u, m)[u.todo[m] := Off(u.base.rows[u.todo[m]])];
  }

  lemma ReviveNothing(u: Undo, m: nat)
    requires UndoOk(u) && m < |u.todo| && u.todo[m] in u.start.rows
    ensures RevivedTable(u, m + 1) == RevivedTable(u, m)
  {
    TakeMore(u, m);
    ViewAppend(u.todo[..m], u.todo[m], u.start.rows.Keys);
    assert RevivedRows(u, m + 1) == RevivedRows(u, m);
  }

  lemma ReviveBounds(u: Undo)
    requires UndoOk(u)
    ensures RevivedTable(u, 0) == u.start
    ensures RevivedRows(u, |u.todo|) == Revived(u)
  {
    assert u.todo[..0] == [] && u.todo[..|u.todo|] == u.todo;
    assert RevivedRows(u, 0) == u.start.rows;
    forall k | k in AllKeys(u) && k !in u.start.rows ensures k in u.todo {
      assert k in Elements(u.todo);
    }
  }

  /** Recreating disabled policies at the end of the table changes no answer. */
  lemma RevivingIsHarmless(u: Undo, m: nat, p: Packet)
    requires UndoOk(u) && m <= |u.todo|
    ensures Accepts(RevivedTable(u, m), p) == Accepts(u.start, p)
  {
    hide Pos;
    RevivedFacts(u, m);
    forall k | k in u.start.rows ensures k in u.start.order { assert k in Elements(u.start.order); }
    InertExtension(u.start, RevivedTable(u, m), p);
  }

  // ---------------------------------------------------------------- repositioning

  function Moved(u: Undo): set<MKey> {
    Elements(u.todo)
  }

  function Laid(u: Undo): seq<MKey> {
    RevivedOrder(u, |u.todo|)
  }

  lemma BaseKeys(u: Undo, k: MKey)
    requires UndoOk(u)
    ensures k in u.base.rows <==> k in u.base.order
    ensures k in u.start.rows <==> k in u.start.order
  {
    assert k in Elements(u.base.order) <==> k in u.base.order;
    assert k in Elements(u.start.order) <==> k in u.start.order;
  }

  /** Only the first of the moved policies can be one that was never deleted. */
  lemma StartedUnmoved(u: Undo, k: MKey)
    requires UndoOk(u) && k in u.start.rows
    ensures k in Moved(u) ==> Lingers(u) && k == u.todo[0]
    ensures k in u.base.rows && k !in Moved(u) ==> k in Elements(u.base.order) - Moved(u)
  {
    BaseKeys(u, k);
    if k in Moved(u) {
      assert u.todo[Pos(u.todo, k)] == k;
      assert IsGone(u, Pos(u.todo, k));
    }
  }

  lemma UnmovedStarted(u: Undo, k: MKey)
    requires UndoOk(u) && k in u.base.rows && k !in Moved(u)
    ensures k in u.start.rows
  {
  }

  /** The table is ready for the repositioning loop. */
  lemma LaidIsRestorable(u: Undo)
    requires UndoOk(u)
    ensures Restorable(u.base.order, Moved(u), Laid(u))
  {
    hide Pos, Only;
    var base, moved, s := u.base.order, Moved(u), Laid(u);
    RevivedFacts(u, |u.todo|);
    ReviveBounds(u);
    forall j: nat ensures Repositioning.Present(base, s, j) {
      if j < |base| { BaseKeys(u, base[j]); assert base[j] in Elements(s); }
    }
    var kept := Elements(base) - moved;
    forall x, y | x in kept && y in kept && x in s && y in s ensures Above(s, x, y) <==> Above(base, x, y) {
      BaseKeys(u, x);
      BaseKeys(u, y);
      UnmovedStarted(u, x);
      UnmovedStarted(u, y);
      assert Above(u.start.order, x, y) <==> Above(base, x, y);
    }
    forall a, j: nat ensures TailBelow(base, moved, s, a, j) {
      if a in base && a !in moved && InTail(base, moved, j) { TailStartsBelow(u, a, j); }
    }
    assert moved <= Elements(base);
  }

  lemma TailStartsBelow(u: Undo, a: MKey, j: nat)
    requires UndoOk(u) && a in u.base.order && a !in Moved(u) && InTail(u.base.order, Moved(u), j)
    ensures Above(Laid(u), a, u.base.order[j])
  {
    hide Pos, Only;
    var base, k := u.base.order, u.base.order[j];
    RevivedFacts(u, |u.todo|);
    BaseKeys(u, a);
    BaseKeys(u, k);
    UnmovedStarted(u, a);
    ReviveBounds(u);
    assert k in Elements(Laid(u));
    if k in u.start.rows {
      TailIsMoved(u, j, Pos(base, a));
      PosIs(base, j);
      assert Above(base, a, k);
    }
  }

  lemma {:induction false} TailIsMoved(u: Undo, j: nat, i: nat)
    requires UndoOk(u) && InTail(u.base.order, Moved(u), j) && i < |u.base.order| && u.base.order[i] !in Moved(u)
    ensures i < j
    decreases |u.base.order| - j
  {
    if j + 1 < |u.base.order| { TailIsMoved(u, j + 1, i); }
  }

  // ---------------------------------------------------------------- how far one policy sinks

  /** The index range of the run of moved policies that an unapplied DELETE is part of. */
  predicate InRun(u: Undo, r: nat) {
    && Lingers(u) && u.todo[0] in u.base.order
    && Pos(u.base.order, u.todo[0]) <= r <= RunEnd(u.base.order, Moved(u), Pos(u.base.order, u.todo[0]))
  }

  predicate AboveRun(u: Undo, s: seq<MKey>, x: MKey, r: nat) {
    InRun(u, r) && x in u.start.order && Above(u.start.order, x, u.todo[0]) ==> Above(s, x, u.base.order[r])
  }

  predicate StaysAboveNext(u: Undo, s: seq<MKey>) {
    Lingers(u) && Below(u.base.order, u.todo[0]).Some? && Below(u.base.order, u.todo[0]).value in u.start.rows
    ==> Above(s, u.todo[0], Below(u.base.order, u.todo[0]).value)
  }

  /** What every step of the repositioning loop keeps: the policies of the table
      it started from stay in order, except that the policy of an unapplied
      DELETE may have moved down, though not below its saved successor. */
  ghost predicate Sinking(u: Undo, s: seq<MKey>) {
    && Restorable(u.base.order, Moved(u), s) && Elements(s) == AllKeys(u)
    && SameOrder(u.start.order, s, u.start.rows.Keys - Moved(u))
    && (forall x, r: nat :: AboveRun(u, s, x, r))
    && StaysAboveNext(u, s)
  }

  lemma LaidIsSinking(u: Undo)
    requires UndoOk(u)
    ensures Sinking(u, Laid(u))
  {
    hide Pos, Only, Restorable, RunEnd;
    RevivedFacts(u, |u.todo|);
    ReviveBounds(u);
    LaidIsRestorable(u);
    forall x, r: nat ensures AboveRun(u, Laid(u), x, r) {
      if InRun(u, r) && x in u.start.order && Above(u.start.order, x, u.todo[0]) {
        RunStartsBelow(u, x, r);
      }
    }
    LaidAboveNext(u);
  }

  lemma LaidAboveNext(u: Undo)
    requires UndoOk(u)
    ensures StaysAboveNext(u, Laid(u))
  {
    hide Pos, Only, View;
    RevivedFacts(u, |u.todo|);
    if Lingers(u) && Below(u.base.order, u.todo[0]).Some? {
      var d, b := u.todo[0], Below(u.base.order, u.todo[0]).value;
      BaseKeys(u, d);
      PosIs(u.base.order, Pos(u.base.order, d) + 1);
      BaseKeys(u, b);
      assert Above(u.base.order, d, b);
      if b in u.start.rows { assert Above(u.start.order, d, b); }
    }
  }

  lemma RunStartsBelow(u: Undo, x: MKey, r: nat)
    requires UndoOk(u) && InRun(u, r) && x in u.start.order && Above(u.start.order, x, u.todo[0])
    ensures Above(Laid(u), x, u.base.order[r])
  {
    hide Pos, Only;
    var base, d, k := u.base.order, u.todo[0], u.base.order[r];
    RevivedFacts(u, |u.todo|);
    ReviveBounds(u);
    BaseKeys(u, d);
    BaseKeys(u, k);
    PosIs(base, r);
    assert k in Elements(Laid(u));
    if k in u.start.rows && k != d {
      PosApart(base, k, d);
      assert Above(base, d, k);
      assert Above(u.start.order, d, k);
    }
  }

  lemma RunGoesOn(base: seq<MKey>, moved: set<MKey>, j: nat, r: nat)
    requires j < |base| && j <= r <= RunEnd(base, moved, j) && base[r] in moved && r + 1 < |base|
    ensures r + 1 <= RunEnd(base, moved, j)
  {
  }

  lemma AloneStays(base: seq<MKey>, s: seq<MKey>, k: MKey)
    requires base == [k]
    ensures RestoredTo(base, s, k) == s
  {
    PosIs(base, 0);
  }

  lemma StepKeepsAboveRun(u: Undo, s: seq<MKey>, k: MKey, x: MKey, r: nat)
    requires UndoOk(u) && Sinking(u, s) && k in u.todo
    ensures AboveRun(u, RestoredTo(u.base.order, s, k), x, r)
  {
    hide Pos, Only, MovedBefore, MovedAfter, RestoredTo;
    var base, moved := u.base.order, Moved(u);
    if InRun(u, r) && x in u.start.order && Above(u.start.order, x, u.todo[0]) {
      SunkMembers(u, s, x, r);
      assert AboveRun(u, s, x, r);
      if base[r] != k {
        RestoredToKeepsOthers(base, s, k, {x, base[r]});
      } else if r + 1 < |base| {
        RunStepBefore(u, s, x, r);
      } else if r > 0 {
        RunStepAfter(u, s, x, r);
      } else {
        AloneStays(base, s, k);
      }
    }
  }

  lemma SunkMembers(u: Undo, s: seq<MKey>, x: MKey, r: nat)
    requires UndoOk(u) && Sinking(u, s) && InRun(u, r) && x in u.start.order && Above(u.start.order, x, u.todo[0])
    ensures x in s && x !in Moved(u) && r < |u.base.order|
    ensures u.base.order[r] in s && Pos(u.base.order, u.base.order[r]) == r
    ensures Distinct(s) && Distinct(u.base.order) && Above(s, x, u.base.order[r])
  {
    hide Only, Pos;
    assert AboveRun(u, s, x, r);
    BaseKeys(u, x);
    StartedUnmoved(u, x);
    assert x in Elements(s);
    KnownKey(u.base.order, Moved(u), s, r);
  }

  lemma RunStepBefore(u: Undo, s: seq<MKey>, x: MKey, r: nat)
    requires UndoOk(u) && Sinking(u, s) && InRun(u, r) && x in u.start.order && Above(u.start.order, x, u.todo[0])
    requires r + 1 < |u.base.order| && u.base.order[r] in u.todo
    ensures Above(RestoredTo(u.base.order, s, u.base.order[r]), x, u.base.order[r])
  {
    hide Pos, Only, MovedBefore, MovedAfter, UndoOk, Sinking, Restorable, RunEnd;
    var base, moved := u.base.order, Moved(u);
    SunkMembers(u, s, x, r);
    RunGoesOn(base, moved, Pos(base, u.todo[0]), r);
    SunkMembers(u, s, x, r + 1);
    DistinctApart(base, r, r + 1);
    MovedBelow(s, base[r], base[r + 1], x);
  }

  lemma RunStepAfter(u: Undo, s: seq<MKey>, x: MKey, r: nat)
    requires UndoOk(u) && Sinking(u, s) && InRun(u, r) && x in u.start.order && Above(u.start.order, x, u.todo[0])
    requires 0 < r && r + 1 == |u.base.order| && u.base.order[r] in u.todo
    ensures Above(RestoredTo(u.base.order, s, u.base.order[r]), x, u.base.order[r])
  {
    hide Pos, Only, MovedBefore, MovedAfter;
    var base, moved := u.base.order, Moved(u);
    SunkMembers(u, s, x, r);
    KnownKey(base, moved, s, r - 1);
    AbovePredecessor(u, s, x, r);
    DistinctApart(base, r - 1, r);
    MovedAfterBelow(s, base[r], base[r - 1], x);
  }

  lemma AbovePredecessor(u: Undo, s: seq<MKey>, x: MKey, r: nat)
    requires UndoOk(u) && Sinking(u, s) && InRun(u, r) && 0 < r && r + 1 == |u.base.order|
    requires u.base.order[r] in Moved(u)
    requires x in u.start.order && Above(u.start.order, x, u.todo[0])
    ensures x == u.base.order[r - 1] || Above(s, x, u.base.order[r - 1])
  {
    hide Pos, Only;
    var base, moved, d := u.base.order, Moved(u), u.todo[0];
    BaseKeys(u, x);
    StartedUnmoved(u, x);
    if Pos(base, d) < r {
      assert AboveRun(u, s, x, r - 1);
    } else if x in u.base.rows {
      BaseKeys(u, x);
      PredecessorIsLowest(base, moved, s, x, r);
    } else {
      assert NewAboveAnchor(u, x);
      BaseKeys(u, u.anchor);
      StartedUnmoved(u, u.anchor);
      assert Above(s, x, u.anchor) by { assert Above(u.start.order, x, u.anchor); }
      PredecessorIsLowest(base, moved, s, u.anchor, r);
    }
  }

  lemma SinkStep(u: Undo, s: seq<MKey>, k: MKey)
    requires UndoOk(u) && Sinking(u, s) && k in u.todo
    ensures Sinking(u, RestoredTo(u.base.order, s, k))
  {
    hide Pos, Only, MovedBefore, MovedAfter, RestoredTo;
    var base, moved, m := u.base.order, Moved(u), RestoredTo(u.base.order, s, k);
    StepKeepsRestorable(base, moved, s, k);
    RestoredToKeeps(base, s, k);
    var kept := u.start.rows.Keys - moved;
    RestoredToKeepsOthers(base, s, k, kept);
    forall z | z in kept ensures z in s { assert z in Elements(s); }
    ChainOrders(u.start.order, s, m, kept);
    forall x, r: nat ensures AboveRun(u, m, x, r) { StepKeepsAboveRun(u, s, k, x, r); }
    if Lingers(u) && Below(base, u.todo[0]).Some? && Below(base, u.todo[0]).value in u.start.rows {
      SinkKeepsNext(u, s, k);
    }
  }

  lemma SinkKeepsNext(u: Undo, s: seq<MKey>, k: MKey)
    requires UndoOk(u) && Sinking(u, s) && k in u.todo
    requires Lingers(u) && Below(u.base.order, u.todo[0]).Some? && Below(u.base.order, u.todo[0]).value in u.start.rows
    ensures Above(RestoredTo(u.base.order, s, k), u.todo[0], Below(u.base.order, u.todo[0]).value)
  {
    hide Pos, Only, MovedBefore, MovedAfter;
    var base, moved, d := u.base.order, Moved(u), u.todo[0];
    var b := Below(base, d).value;
    BaseKeys(u, d);
    KnownKey(base, moved, s, Pos(base, d));
    KnownKey(base, moved, s, Pos(base, d) + 1);
    PosApart(base, d, b);
    StartedUnmoved(u, b);
    if k == d {
      MovedBeforeLinks(s, d, b);
    } else {
      RestoredToKeepsOthers(base, s, k, {d, b});
    }
  }

  // ---------------------------------------------------------------- what a sunken policy lets through

  ghost predicate Silent(order: seq<MKey>, rows: map<MKey, Row>, p: Packet) {
    forall k :: k in order ==> VerdictAt(rows, k, p).Passed?
  }

  lemma {:induction false} AcceptsInTwo(a: seq<MKey>, b: seq<MKey>, rows: map<MKey, Row>, p: Packet)
    ensures Silent(a, rows, p) ==> !AcceptsIn(a, rows, p)
    ensures AcceptsIn(a + b, rows, p) == if Silent(a, rows, p) then AcceptsIn(b, rows, p) else AcceptsIn(a, rows, p)
  {
    if a == [] {
      assert a + b == b;
    } else {
      AcceptsInTwo(a[1..], b, rows, p);
      assert (a + b)[1..] == a[1..] + b;
      assert a[0] in a;
      assert forall k :: k in a <==> k == a[0] || k in a[1..];
    }
  }

  /** A row that moves down from index `c` to `at` uncovers only what the rows
      it passes accept. */
  lemma SunkAccepts(w: seq<MKey>, c: nat, at: nat, top: nat, d: MKey, rows: map<MKey, Row>, p: Packet)
    requires c <= at <= top <= |w| && AcceptsIn(Inserted(w, at, d), rows, p)
    ensures || AcceptsIn(Inserted(w, c, d), rows, p)
            || (VerdictAt(rows, d, p).Denied? && Silent(w[..c], rows, p) && AcceptsIn(w[c..top], rows, p))
  {
    var a, s, rest := w[..c], w[c..at], w[at..];
    assert Inserted(w, at, d) == a + (s + ([d] + rest)) && Inserted(w, c, d) == a + ([d] + (s + rest));
    AcceptsInTwo(a, s + ([d] + rest), rows, p);
    AcceptsInTwo(s, [d] + rest, rows, p);
    AcceptsInTwo([d], rest, rows, p);
    AcceptsInTwo(a, [d] + (s + rest), rows, p);
    AcceptsInTwo([d], s + rest, rows, p);
    AcceptsInTwo(s, rest, rows, p);
    assert w[c..top] == s + w[at..top];
    AcceptsInTwo(s, w[at..top], rows, p);
    OneRow(d, rows, p);
  }

  lemma OneRow(d: MKey, rows: map<MKey, Row>, p: Packet)
    ensures AcceptsIn([d], rows, p) == VerdictAt(rows, d, p).Accepted?
    ensures Silent([d], rows, p) == VerdictAt(rows, d, p).Passed?
  {
    assert [d][1..] == [];
    assert d in [d];
  }

  /** Where the policy of an unapplied DELETE ends up at the lowest. */
  function Lowest(u: Undo): (l: nat)
    requires Lingers(u)
    ensures l <= |Without(u.start.order, u.todo[0])|
  {
    var w, b := Without(u.start.order, u.todo[0]), Below(u.base.order, u.todo[0]);
    if b.Some? && b.value in u.start.rows then Pos(w, b.value) else |w|
  }

  /** A packet that the policy of an unapplied DELETE denies, nothing above it
      matches, and the policies between it and its saved successor accept. */
  ghost predicate Escapes(u: Undo, p: Packet) {
    Lingers(u) && u.todo[0] in u.start.order &&
    var d, w := u.todo[0], Without(u.start.order, u.todo[0]);
    var c := Pos(u.start.order, d);
    && c <= Lowest(u)
    && VerdictAt(u.start.rows, d, p).Denied? && Silent(w[..c], u.start.rows, p)
    && AcceptsIn(w[c..Lowest(u)], u.start.rows, p)
  }

  lemma WithoutIsOnly(u: Undo, s: seq<MKey>)
    requires UndoOk(u) && Sinking(u, s) && Lingers(u)
    ensures Without(Only(s, u.start.rows.Keys), u.todo[0]) == Without(u.start.order, u.todo[0])
    ensures Distinct(Only(s, u.start.rows.Keys)) && u.todo[0] in Only(s, u.start.rows.Keys)
    ensures u.todo[0] in u.start.order && Distinct(u.start.order) && u.todo[0] in s
  {
    hide Pos;
    var d, keys := u.todo[0], u.start.rows.Keys;
    OnlyFacts(s, keys);
    BaseKeys(u, d);
    assert d in Elements(s);
    OnlyLess(s, keys, d);
    OnlyAll(u.start.order, keys) by {
      forall z | z in u.start.order ensures z in keys { BaseKeys(u, z); }
    }
    OnlyLess(u.start.order, keys, d);
    forall z | z in keys - {d} ensures z in s && z in u.start.order {
      BaseKeys(u, z);
      assert z in Elements(s);
    }
    forall z | z in keys - {d} ensures z !in Moved(u) { StartedUnmoved(u, z); }
    forall x, y | x in keys - {d} && y in keys - {d} && x in s && y in s
      ensures Above(s, x, y) <==> Above(u.start.order, x, y)
    {
      assert x in u.start.order && y in u.start.order;
      assert Above(u.start.order, x, y) <==> Above(s, x, y);
    }
    OnlyAgrees(s, u.start.order, keys - {d});
  }

  lemma InsertedBack(q: seq<MKey>, d: MKey)
    requires Distinct(q) && d in q
    ensures Pos(q, d) <= |Without(q, d)| && Inserted(Without(q, d), Pos(q, d), d) == q
  {
    WithoutFacts(q, d);
  }

  /** In every order of the repositioning loop the policy of an unapplied DELETE
      stands between its place at the start and the lowest place. */
  lemma SunkWithin(u: Undo, s: seq<MKey>)
    requires UndoOk(u) && Sinking(u, s) && Lingers(u)
    ensures var d, w, q := u.todo[0], Without(u.start.order, u.todo[0]), Only(s, u.start.rows.Keys);
      && Pos(u.start.order, d) <= Pos(q, d) <= Lowest(u) <= |w|
      && q == Inserted(w, Pos(q, d), d)
      && u.start.order == Inserted(w, Pos(u.start.order, d), d)
  {
    hide Pos, Only, Without, Inserted;
    WithoutIsOnly(u, s);
    var d, w, q := u.todo[0], Without(u.start.order, u.todo[0]), Only(s, u.start.rows.Keys);
    InsertedBack(q, d);
    InsertedBack(u.start.order, d);
    SunkNotAbove(u, s);
    SunkNotBelow(u, s);
  }

  lemma SunkNotAbove(u: Undo, s: seq<MKey>)
    requires UndoOk(u) && Sinking(u, s) && Lingers(u)
    ensures Pos(u.start.order, u.todo[0]) <= Pos(Only(s, u.start.rows.Keys), u.todo[0])
  {
    hide Pos, Only, Inserted;
    WithoutIsOnly(u, s);
    var d, w, q := u.todo[0], Without(u.start.order, u.todo[0]), Only(s, u.start.rows.Keys);
    var c, at := Pos(u.start.order, d), Pos(q, d);
    if at < c {
      var x := u.start.order[at];
      assert w[at] == x;
      assert q[at + 1] == x;
      PosIs(u.start.order, at);
      PosIs(q, at + 1);
      BaseKeys(u, d);
      assert InRun(u, Pos(u.base.order, d));
      assert AboveRun(u, s, x, Pos(u.base.order, d));
      BaseKeys(u, x);
      assert x in Elements(s);
      OnlyAbove(s, u.start.rows.Keys, x, d);
    }
  }

  lemma SunkNotBelow(u: Undo, s: seq<MKey>)
    requires UndoOk(u) && Sinking(u, s) && Lingers(u)
    ensures Pos(Only(s, u.start.rows.Keys), u.todo[0]) <= Lowest(u)
  {
    hide Pos, Only, Inserted;
    WithoutIsOnly(u, s);
    var d, w, q := u.todo[0], Without(u.start.order, u.todo[0]), Only(s, u.start.rows.Keys);
    WithoutFacts(q, d);
    var next := Below(u.base.order, d);
    if next.Some? && next.value in u.start.rows {
      var b := next.value;
      BaseKeys(u, b);
      BaseKeys(u, d);
      PosIs(u.base.order, Pos(u.base.order, d) + 1);
      assert b in Elements(s);
      OnlyFacts(s, u.start.rows.Keys);
      OnlyAbove(s, u.start.rows.Keys, d, b);
      WithoutAt(q, d, b);
    }
  }

  /** Every order of the repositioning loop accepts what the starting table
      accepts, and beyond that only packets that escape. */
  lemma SinkingIsSafe(u: Undo, s: seq<MKey>, p: Packet)
    requires UndoOk(u) && Sinking(u, s)
    ensures AcceptsIn(s, Revived(u), p) ==> Accepts(u.start, p) || Escapes(u, p)
  {
    hide Pos, Only, Without, Inserted, AcceptsIn;
    var keys := u.start.rows.Keys;
    DropRevived(u, s, p);
    if Lingers(u) {
      SunkWithin(u, s);
      WithoutIsOnly(u, s);
      if AcceptsIn(s, Revived(u), p) {
        var d, w := u.todo[0], Without(u.start.order, u.todo[0]);
        SunkAccepts(w, Pos(u.start.order, d), Pos(Only(s, keys), d), Lowest(u), d, u.start.rows, p);
      }
    } else {
      NothingSinks(u, s);
    }
  }

  lemma DropRevived(u: Undo, s: seq<MKey>, p: Packet)
    requires UndoOk(u) && Sinking(u, s)
    ensures AcceptsIn(s, Revived(u), p) == AcceptsIn(Only(s, u.start.rows.Keys), u.start.rows, p)
  {
    hide Pos, Only;
    PassedKeysDrop(s, Revived(u), u.start.rows.Keys, p);
    OnlyFacts(s, u.start.rows.Keys);
    SameVerdictsSameAnswer(Only(s, u.start.rows.Keys), Revived(u), u.start.rows, p);
  }

  lemma NothingSinks(u: Undo, s: seq<MKey>)
    requires UndoOk(u) && Sinking(u, s) && !Lingers(u)
    ensures Only(s, u.start.rows.Keys) == u.start.order
  {
    hide Pos, Only;
    var keys := u.start.rows.Keys;
    forall z | z in keys ensures z !in Moved(u) && z in s && z in u.start.order {
      StartedUnmoved(u, z);
      BaseKeys(u, z);
      assert z in Elements(s);
    }
    forall x, y | x in keys && y in keys && x in s && y in s ensures Above(s, x, y) <==> Above(u.start.order, x, y) {
      assert x in u.start.order && y in u.start.order;
    }
    OnlyAgrees(s, u.start.order, keys);
    OnlyAll(u.start.order, keys) by {
      forall z | z in u.start.order ensures z in keys { BaseKeys(u, z); }
    }
  }

  /** The first repositioning of an unapplied DELETE moves its policy to the
      lowest place, and then every escaping packet is accepted. */
  lemma FirstMoveLetsEscape(u: Undo, p: Packet)
    requires UndoOk(u) && Escapes(u, p)
    ensures AcceptsIn(RestoredTo(u.base.order, Laid(u), u.todo[0]), Revived(u), p)
    ensures !Accepts(u.start, p)
  {
    hide Pos, Only, Without, Inserted, AcceptsIn, RestoredTo;
    var d, w, rows := u.todo[0], Without(u.start.order, u.todo[0]), u.start.rows;
    var s := RestoredTo(u.base.order, Laid(u), d);
    var c, l := Pos(u.start.order, d), Lowest(u);
    LaidIsSinking(u);
    SinkStep(u, Laid(u), d);
    DropRevived(u, s, p);
    SunkWithin(u, s);
    EmptyAcceptsNothing(w[c..l], rows, p);
    FirstMoveSinks(u);
    LowestAccepts(w, c, l, d, rows, p);
  }

  lemma LowestAccepts(w: seq<MKey>, c: nat, l: nat, d: MKey, rows: map<MKey, Row>, p: Packet)
    requires c <= l <= |w| && VerdictAt(rows, d, p).Denied? && Silent(w[..c], rows, p) && AcceptsIn(w[c..l], rows, p)
    ensures AcceptsIn(Inserted(w, l, d), rows, p) && !AcceptsIn(Inserted(w, c, d), rows, p)
  {
    hide AcceptsIn;
    assert Inserted(w, l, d) == w[..c] + (w[c..l] + ([d] + w[l..]));
    assert Inserted(w, c, d) == w[..c] + ([d] + w[c..]);
    AcceptsInTwo(w[..c], w[c..l] + ([d] + w[l..]), rows, p);
    AcceptsInTwo(w[c..l], [d] + w[l..], rows, p);
    AcceptsInTwo(w[..c], [d] + w[c..], rows, p);
    AcceptsInTwo([d], w[c..], rows, p);
    OneRow(d, rows, p);
  }

  lemma EmptyAcceptsNothing(s: seq<MKey>, rows: map<MKey, Row>, p: Packet)
    requires AcceptsIn(s, rows, p)
    ensures s != []
  {
  }

  lemma FirstMoveSinks(u: Undo)
    requires UndoOk(u) && Lingers(u) && Pos(u.start.order, u.todo[0]) < Lowest(u)
    ensures Pos(Only(RestoredTo(u.base.order, Laid(u), u.todo[0]), u.start.rows.Keys), u.todo[0]) == Lowest(u)
  {
    hide Pos, Only, Without, Inserted, MovedBefore, MovedAfter;
    var d, w, keys := u.todo[0], Without(u.start.order, u.todo[0]), u.start.rows.Keys;
    var s := RestoredTo(u.base.order, Laid(u), d);
    LaidIsSinking(u);
    SinkStep(u, Laid(u), d);
    SunkWithin(u, s);
    WithoutIsOnly(u, s);
    BaseKeys(u, d);
    KnownKey(u.base.order, Moved(u), Laid(u), Pos(u.base.order, d));
    var next := Below(u.base.order, d);
    if next.Some? {
      var b := next.value;
      KnownKey(u.base.order, Moved(u), Laid(u), Pos(u.base.order, d) + 1);
      PosApart(u.base.order, d, b);
      MovedBeforeLinks(Laid(u), d, b);
      if b in keys {
        var q := Only(s, keys);
        OnlyFacts(s, keys);
        OnlyLinked(s, keys, d, b);
        WithoutAt(q, d, b);
      } else {
        SunkToTheEnd(u, b);
      }
    } else {
      NothingBelowLast(u);
    }
  }

  lemma InsertedNext(s: seq<MKey>, at: nat, k: MKey)
    requires at < |s|
    ensures |Inserted(s, at, k)| == |s| + 1 && Inserted(s, at, k)[at + 1] == s[at]
  {
  }

  /** Moved before a recreated successor, the policy stands below the whole table. */
  lemma SunkToTheEnd(u: Undo, b: MKey)
    requires UndoOk(u) && Lingers(u) && Below(u.base.order, u.todo[0]) == Some(b) && b !in u.start.rows
    ensures Pos(Only(RestoredTo(u.base.order, Laid(u), u.todo[0]), u.start.rows.Keys), u.todo[0]) == |Without(u.start.order, u.todo[0])|
  {
    hide Pos, Only, Without, Inserted, MovedBefore, MovedAfter;
    var d, w, keys := u.todo[0], Without(u.start.order, u.todo[0]), u.start.rows.Keys;
    var s := RestoredTo(u.base.order, Laid(u), d);
    LaidIsSinking(u);
    SinkStep(u, Laid(u), d);
    SunkWithin(u, s);
    WithoutIsOnly(u, s);
    RevivedFacts(u, |u.todo|);
    BaseKeys(u, d);
    BaseKeys(u, b);
    KnownKey(u.base.order, Moved(u), Laid(u), Pos(u.base.order, d));
    KnownKey(u.base.order, Moved(u), Laid(u), Pos(u.base.order, d) + 1);
    var q := Only(s, keys);
    var at := Pos(q, d);
    if at < |w| {
      var x := w[at];
      InsertedNext(w, at, d);
      WithoutFacts(u.start.order, d);
      assert x in w;
      PosIs(q, at + 1);
      BaseKeys(u, x);
      assert x in Elements(Laid(u)) && x in Elements(s);
      MovedBelow(Laid(u), d, b, x);
      OnlyAbove(s, keys, x, d);
    }
  }

  lemma OrderAsBefore(u: Undo, x: MKey, y: MKey)
    requires UndoOk(u) && x in u.base.rows && y in u.base.rows && x in u.start.rows && y in u.start.rows
    ensures Above(u.start.order, x, y) <==> Above(u.base.order, x, y)
  {
    BaseKeys(u, x);
    BaseKeys(u, y);
  }

  /** Nothing stands below the last policy of the saved order. */
  lemma NothingBelowLast(u: Undo)
    requires UndoOk(u) && Lingers(u) && Below(u.base.order, u.todo[0]).None?
    ensures Pos(u.start.order, u.todo[0]) >= |Without(u.start.order, u.todo[0])|
  {
    hide Pos, Only, Without, Inserted;
    var d, order := u.todo[0], u.start.order;
    BaseKeys(u, d);
    WithoutFacts(order, d);
    var c := Pos(order, d);
    if c + 1 < |order| {
      var x := order[c + 1];
      PosIs(order, c + 1);
      BaseKeys(u, x);
      if x in u.base.rows {
        PosApart(order, x, d);
        PosApart(u.base.order, x, d);
        OrderAsBefore(u, x, d);
      } else {
        assert NewAboveAnchor(u, x);
        BaseKeys(u, u.anchor);
        PosApart(u.base.order, u.anchor, d);
        OrderAsBefore(u, u.anchor, d);
      }
    }
  }
}
