/** What a stopped run leaves behind, and the undo it asks for. */
module RollbackPlans {
  import opened PolicyTables
  import opened PolicyOrder
  import opened DeploymentPlans
  import opened DeploymentSafety
  import opened DeploymentSteps
  import opened DeploymentRecords
  import opened DeploymentRuns
  import opened RollbackTables
  import opened RollbackSafety

  // ---------------------------------------------------------------- stopped runs

  /** The states in which a run may leave the policy of one command. */
  predicate ItemState(pl: Plan, rows: map<MKey, Row>, i: nat) {
    i < |pl.snaps| == |pl.ids| ==>
      var s, k := pl.snaps[i], Key(pl, i);
      if i < pl.ups then
        if s.existed then k in rows && (rows[k] == Row(s.command.name, s.restore) || rows[k] == Row(s.command.name, s.command.payload))
        else k in rows ==> rows[k] == Row(s.command.name, CreatePayload(s)) || rows[k] == Row(s.command.name, s.command.payload)
      else if s.existed then k in rows ==> rows[k] == Row(s.command.name, s.restore)
      else k !in rows
  }

  ghost predicate CleanStop(pl: Plan, t: Table, touched: seq<nat>, post: seq<Post>) {
    && PlanOk(pl) && TableOk(t) && Grounded(pl, t)
    && Recorded(pl, t.rows, touched, post, if touched == [] then 0 else |touched| - 1)
    && (forall m: nat :: InPlace(pl, t, touched, m))
    && forall i: nat :: ItemState(pl, t.rows, i)
  }

  lemma CleanStopFacts(pl: Plan, t: Table, touched: seq<nat>, post: seq<Post>)
    requires CleanStop(pl, t, touched, post)
    ensures PlanOk(pl) && |post| == |pl.snaps| == |pl.ids|
  {
    hide PlanOk;
  }

  lemma PreparedItems(pl: Plan, m: nat, i: nat)
    requires PlanOk(pl) && m <= pl.ups
    ensures ItemState(pl, Prepared(pl, m), i)
  {
    if i < |pl.snaps| {
      assert SnapshotOk(pl, i);
      if IsNew(pl, i) {
        PreparedNew(pl, m, i);
      } else {
        PreparedAt(pl, m, Key(pl, i));
        if Key(pl, i) in NewKeys(pl, m) {
          var j: nat :| j < m && IsNew(pl, j) && pl.ids[j] == Key(pl, i);
          KeyIndex(pl, i);
          KeyIndex(pl, j);
        }
      }
    }
  }

  lemma StageItems(pl: Plan, done: set<MKey>, i: nat)
    requires PlanOk(pl)
    ensures ItemState(pl, StageTable(pl, done).rows, i)
  {
    if i < |pl.snaps| {
      assert SnapshotOk(pl, i);
      if i < pl.ups {
        StageRow(pl, done, i);
      } else if pl.snaps[i].existed {
        StageDeleteRow(pl, done, i);
      } else {
        AbsentUnchanged(pl, i);
        PreparedItems(pl, pl.ups, i);
      }
    }
  }

  /** Every way a run may stop leaves a clean state. */
  lemma StoppedIsClean(run: DeploymentRun)
    requires run.Stopped()
    ensures CleanStop(run.pl, run.device.t, run.touched, run.post)
  {
    hide Prepared, Final, FullOrder, Only, Recorded, Grounded, InPhase, StageTable, InPlace, ItemState;
    var pl, t := run.pl, run.device.t;
    if m: nat :| m <= pl.ups && t == PreparedTable(pl, m) {
      PreparedTableOk(pl, m);
      forall i: nat ensures ItemState(pl, t.rows, i) { PreparedItems(pl, m, i); }
    } else if m: nat :| IsNew(pl, m) && t == UnplacedTable(pl, m) {
      UnplacedTableOk(pl, m);
      forall i: nat ensures ItemState(pl, t.rows, i) { PreparedItems(pl, m + 1, i); }
    } else {
      var done: set<MKey> :| InPhase(pl, done) && t == StageTable(pl, done);
      StageTableOk(pl, done);
      forall i: nat ensures ItemState(pl, t.rows, i) { StageItems(pl, done, i); }
    }
  }

  // ---------------------------------------------------------------- the lists of a rollback

  datatype Kind = DeletedDeny | DeletedAccept | ExistingDeny | ExistingAccept | NewDeny | NewAccept

  function KindOf(s: Snapshot): Kind {
    if s.command.operation == Delete then (if s.restore.action == Deny then DeletedDeny else DeletedAccept)
    else if s.existed then (if s.restore.action == Deny then ExistingDeny else ExistingAccept)
    else (if s.command.payload.action == Deny then NewDeny else NewAccept)
  }

  const DELETED: set<Kind> := {DeletedDeny, DeletedAccept}

  predicate IsKind(pl: Plan, kinds: set<Kind>, i: nat) {
    i < |pl.snaps| && KindOf(pl.snaps[i]) in kinds
  }

  /** The touched commands of some kinds, latest first. */
  function Chosen(pl: Plan, touched: seq<nat>, kinds: set<Kind>): seq<nat> {
    if touched == [] then []
    else
      var last := touched[|touched| - 1];
      (if IsKind(pl, kinds, last) then [last] else []) + Chosen(pl, touched[..|touched| - 1], kinds)
  }

  lemma {:induction false} ChosenFacts(pl: Plan, touched: seq<nat>, kinds: set<Kind>)
    requires Distinct(touched)
    ensures Distinct(Chosen(pl, touched, kinds))
    ensures forall i :: i in Chosen(pl, touched, kinds) <==> i in touched && IsKind(pl, kinds, i)
    ensures forall j :: 0 < j < |Chosen(pl, touched, kinds)| ==> Chosen(pl, touched, kinds)[j] != touched[|touched| - 1]
  {
    if touched != [] {
      var last, rest := touched[|touched| - 1], touched[..|touched| - 1];
      RestDistinct(touched);
      ChosenFacts(pl, rest, kinds);
      var list := Chosen(pl, rest, kinds);
      assert forall i :: i in list ==> i in rest;
      assert Chosen(pl, touched, kinds) == if IsKind(pl, kinds, last) then [last] + list else list;
      if IsKind(pl, kinds, last) { ConsDistinct(last, list); }
      forall j | 0 <= j < |list| ensures list[j] != last { assert list[j] in list; }
    }
  }

  lemma RestDistinct(touched: seq<nat>)
    requires Distinct(touched) && touched != []
    ensures var rest, last := touched[..|touched| - 1], touched[|touched| - 1];
      Distinct(rest) && last !in rest && forall i :: i in touched <==> i in rest || i == last
  {
    var rest, last := touched[..|touched| - 1], touched[|touched| - 1];
    assert touched == rest + [last];
    forall i: nat, j: nat ensures Apart(rest, i, j) { assert Apart(touched, i, j); }
    forall i | 0 <= i < |rest| ensures rest[i] != last { assert Apart(touched, i, |touched| - 1); }
  }

  predicate Listed(pl: Plan, list: seq<nat>) {
    forall j :: 0 <= j < |list| ==> list[j] < |pl.snaps|
  }

  function KeysOf(pl: Plan, list: seq<nat>): (ks: seq<MKey>)
    requires |pl.snaps| == |pl.ids| && Listed(pl, list)
    ensures |ks| == |list| && forall j :: 0 <= j < |ks| ==> ks[j] == Key(pl, list[j])
  {
    seq(|list|, j requires 0 <= j < |list| => Key(pl, list[j]))
  }

  lemma KeysOfDistinct(pl: Plan, list: seq<nat>)
    requires PlanOk(pl) && Distinct(list) && Listed(pl, list)
    ensures Distinct(KeysOf(pl, list))
    ensures forall i: nat :: i < |pl.snaps| ==> (Key(pl, i) in KeysOf(pl, list) <==> i in list)
  {
    var ks := KeysOf(pl, list);
    forall a: nat, b: nat ensures Apart(ks, a, b) {
      if a < b < |ks| {
        assert Apart(list, a, b);
        KeysApart(pl, list[a], list[b]);
      }
    }
    forall i: nat | i < |pl.snaps| ensures Key(pl, i) in ks <==> i in list {
      if i in list { assert ks[Pos(list, i)] == Key(pl, i); }
      if Key(pl, i) in ks {
        var j := Pos(ks, Key(pl, i));
        if list[j] != i { KeysApart(pl, i, list[j]); }
      }
    }
  }

  function DeletedList(pl: Plan, touched: seq<nat>): seq<nat> {
    Chosen(pl, touched, DELETED)
  }

  lemma {:induction false} ChosenInRange(pl: Plan, touched: seq<nat>, kinds: set<Kind>)
    ensures Listed(pl, Chosen(pl, touched, kinds))
  {
    if touched != [] {
      ChosenInRange(pl, touched[..|touched| - 1], kinds);
    }
  }

  function UndoOf(pl: Plan, t: Table, touched: seq<nat>): Undo
    requires |pl.snaps| == |pl.ids|
  {
    ChosenInRange(pl, touched, DELETED);
    Undo(pl.base, t, pl.anchor, KeysOf(pl, DeletedList(pl, touched)))
  }

  lemma DeletedAre(pl: Plan, i: nat)
    requires PlanOk(pl) && i < |pl.snaps|
    ensures IsKind(pl, DELETED, i) <==> i >= pl.ups
  {
    assert SnapshotOk(pl, i);
  }

  lemma UnmanagedSame(pl: Plan, t: Table, k: MKey)
    requires PlanOk(pl) && Grounded(pl, t)
    ensures Changed(t.rows, pl.base.rows, k) ==> k in Keys(pl)
  {
    assert k !in Keys(pl) ==> SameRow(t.rows, pl.base.rows, k);
  }

  /** The command behind a policy that a run has changed. */
  lemma ChangedIsTouched(pl: Plan, t: Table, touched: seq<nat>, post: seq<Post>, k: MKey)
    requires CleanStop(pl, t, touched, post) && Changed(t.rows, pl.base.rows, k)
    ensures k in Keys(pl) && Pos(Keys(pl), k) in touched && Key(pl, Pos(Keys(pl), k)) == k && Pos(Keys(pl), k) < |pl.snaps|
  {
    hide Pos;
    UnmanagedSame(pl, t, k);
    if k in Keys(pl) {
      assert ItemTouched(pl, t.rows, touched, Pos(Keys(pl), k));
    }
  }

  /** A changed policy keeps its name, and it has one of two contents. */
  lemma ChangedRow(pl: Plan, t: Table, touched: seq<nat>, post: seq<Post>, k: MKey)
    requires CleanStop(pl, t, touched, post) && k in pl.base.rows && k in t.rows && t.rows[k] != pl.base.rows[k]
    ensures var i := Pos(Keys(pl), k);
      && i < pl.ups && i < |pl.snaps| && pl.snaps[i].existed && Key(pl, i) == k && i in touched
      && t.rows[k] == Row(Name(pl, i), Payload(pl, i)) && pl.base.rows[k] == Row(Name(pl, i), pl.snaps[i].restore)
  {
    hide Pos, TableOk, Grounded, Recorded;
    ChangedIsTouched(pl, t, touched, post, k);
    var i := Pos(Keys(pl), k);
    assert ItemState(pl, t.rows, i) && SnapshotOk(pl, i);
  }

  lemma AddedRow(pl: Plan, t: Table, touched: seq<nat>, post: seq<Post>, k: MKey)
    requires CleanStop(pl, t, touched, post) && k !in pl.base.rows && k in t.rows
    ensures var i := Pos(Keys(pl), k);
      && IsNew(pl, i) && Key(pl, i) == k == pl.ids[i] && i in touched
      && (t.rows[k] == Row(Name(pl, i), CreatePayload(pl.snaps[i])) || t.rows[k] == Row(Name(pl, i), Payload(pl, i)))
  {
    hide Pos, TableOk, Grounded, Recorded;
    ChangedIsTouched(pl, t, touched, post, k);
    var i := Pos(Keys(pl), k);
    assert ItemState(pl, t.rows, i) && SnapshotOk(pl, i);
  }

  lemma RemovedRow(pl: Plan, t: Table, touched: seq<nat>, post: seq<Post>, k: MKey)
    requires CleanStop(pl, t, touched, post) && k in pl.base.rows && k !in t.rows
    ensures var i := Pos(Keys(pl), k);
      && pl.ups <= i < |pl.snaps| && pl.snaps[i].existed && Key(pl, i) == k && i in touched
  {
    hide Pos, TableOk, Grounded, Recorded;
    ChangedIsTouched(pl, t, touched, post, k);
    var i := Pos(Keys(pl), k);
    assert ItemState(pl, t.rows, i) && SnapshotOk(pl, i);
  }

  // ---------------------------------------------------------------- the undo is well-formed

  lemma UndoTodo(pl: Plan, t: Table, touched: seq<nat>, post: seq<Post>)
    requires CleanStop(pl, t, touched, post)
    ensures var u := UndoOf(pl, t, touched);
      && Distinct(u.todo) && (pl.ups > 0 ==> u.anchor !in u.todo)
      && (forall k :: k in u.todo ==> k in Keys(pl) && Pos(Keys(pl), k) in touched && Pos(Keys(pl), k) >= pl.ups)
      && (forall k :: k in u.todo ==> k in pl.base.rows && pl.base.rows[k].rule.enabled)
      && (forall i :: i in touched && pl.ups <= i < |pl.snaps| ==> Key(pl, i) in u.todo)
  {
    hide Pos, TableOk, Grounded;
    var u, list := UndoOf(pl, t, touched), DeletedList(pl, touched);
    ChosenFacts(pl, touched, DELETED);
    ChosenInRange(pl, touched, DELETED);
    KeysOfDistinct(pl, list);
    forall k | k in u.todo
      ensures k in Keys(pl) && Pos(Keys(pl), k) in touched && Pos(Keys(pl), k) >= pl.ups
      ensures k in pl.base.rows && pl.base.rows[k].rule.enabled && (pl.ups > 0 ==> k != u.anchor)
    {
      var i := list[Pos(u.todo, k)];
      KeyIndex(pl, i);
      assert i in list;
      DeletedAre(pl, i);
      assert SnapshotOk(pl, i) && InRange(pl, touched, Pos(touched, i)) && NotTheAnchor(pl, i);
    }
    forall i | i in touched && pl.ups <= i < |pl.snaps| ensures Key(pl, i) in u.todo {
      DeletedAre(pl, i);
      assert i in list;
    }
  }

  lemma UndoGone(pl: Plan, t: Table, touched: seq<nat>, post: seq<Post>, j: nat)
    requires CleanStop(pl, t, touched, post) && 0 < j < |UndoOf(pl, t, touched).todo|
    ensures UndoOf(pl, t, touched).todo[j] !in t.rows
  {
    hide Pos, TableOk, Grounded;
    var list := DeletedList(pl, touched);
    ChosenFacts(pl, touched, DELETED);
    var i := list[j];
    assert i in list;
    DeletedAre(pl, i);
    assert touched[Pos(touched, i)] == i;
    assert DeleteDone(pl, t.rows, touched, Pos(touched, i));
  }

  lemma LingeringIsLast(pl: Plan, t: Table, touched: seq<nat>, post: seq<Post>)
    requires CleanStop(pl, t, touched, post) && Lingers(UndoOf(pl, t, touched))
    ensures touched != [] && touched[|touched| - 1] >= pl.ups
  {
    hide Pos, TableOk, Grounded;
    var list := DeletedList(pl, touched);
    ChosenFacts(pl, touched, DELETED);
    ChosenInRange(pl, touched, DELETED);
    var d := list[0];
    assert d in list;
    DeletedAre(pl, d);
    var j := Pos(touched, d);
    assert touched[j] == d;
    assert j < |touched| - 1 ==> DeleteDone(pl, t.rows, touched, j);
  }

  lemma UndoNewAbove(pl: Plan, t: Table, touched: seq<nat>, post: seq<Post>, k: MKey)
    requires CleanStop(pl, t, touched, post)
    ensures NewAboveAnchor(UndoOf(pl, t, touched), k)
  {
    hide Pos, TableOk, Grounded;
    var u := UndoOf(pl, t, touched);
    if Lingers(u) && k in t.rows && k !in pl.base.rows {
      AddedRow(pl, t, touched, post, k);
      AnchorStays(pl, t, touched, post);
      UndoTodo(pl, t, touched, post);
      var i := Pos(Keys(pl), k);
      assert InPlace(pl, t, touched, i);
      LingeringIsLast(pl, t, touched, post);
    }
  }

  lemma UndoNames(pl: Plan, t: Table, touched: seq<nat>, post: seq<Post>, k: MKey, l: MKey)
    requires CleanStop(pl, t, touched, post)
    ensures KeepsName(UndoOf(pl, t, touched), k) && NewNameIsFree(UndoOf(pl, t, touched), k, l)
    ensures RowUndoable(UndoOf(pl, t, touched), k)
  {
    hide Pos, TableOk, Grounded, Recorded;
    if k in pl.base.rows && k in t.rows && t.rows[k] != pl.base.rows[k] {
      ChangedRow(pl, t, touched, post, k);
      assert SnapshotOk(pl, Pos(Keys(pl), k));
    }
    if k !in pl.base.rows && k in t.rows {
      AddedRow(pl, t, touched, post, k);
      assert SnapshotOk(pl, Pos(Keys(pl), k));
    }
  }

  lemma AnchorStays(pl: Plan, t: Table, touched: seq<nat>, post: seq<Post>)
    requires CleanStop(pl, t, touched, post) && pl.ups > 0
    ensures pl.anchor in t.rows
  {
    hide Pos, TableOk;
    forall j | 0 <= j < |pl.snaps| ensures Key(pl, j) != pl.anchor {
      assert NotTheAnchor(pl, j) && SnapshotOk(pl, j);
    }
    assert SameRow(t.rows, pl.base.rows, pl.anchor);
  }

  lemma UndoOfEnds(pl: Plan, t: Table, touched: seq<nat>)
    requires |pl.snaps| == |pl.ids|
    ensures var u := UndoOf(pl, t, touched); u.base == pl.base && u.start == t && u.anchor == pl.anchor
  {
  }

  /** What a stopped run leaves behind can be undone. */
  lemma UndoOfOk(pl: Plan, t: Table, touched: seq<nat>, post: seq<Post>)
    requires CleanStop(pl, t, touched, post)
    ensures UndoOk(UndoOf(pl, t, touched))
  {
    hide Pos, TableOk, Recorded, UndoOf, Chosen;
    var u := UndoOf(pl, t, touched);
    UndoOfEnds(pl, t, touched);
    UndoTodo(pl, t, touched, post);
    forall k ensures KeepsName(u, k) && RowUndoable(u, k) { UndoNames(pl, t, touched, post, k, k); }
    forall k, l ensures NewNameIsFree(u, k, l) { UndoNames(pl, t, touched, post, k, l); }
    forall j: nat ensures IsGone(u, j) { if 0 < j < |u.todo| { UndoGone(pl, t, touched, post, j); } }
    forall k ensures NewAboveAnchor(u, k) { UndoNewAbove(pl, t, touched, post, k); }
    forall k | k in u.base.rows.Keys - u.start.rows.Keys ensures k in Elements(u.todo) {
      RemovedRow(pl, t, touched, post, k);
    }
    LingeringUnchanged(pl, t, touched, post);
  }

  lemma LingeringUnchanged(pl: Plan, t: Table, touched: seq<nat>, post: seq<Post>)
    requires CleanStop(pl, t, touched, post)
    ensures var u := UndoOf(pl, t, touched);
      Lingers(u) ==> u.todo[0] in u.base.rows && u.start.rows[u.todo[0]] == u.base.rows[u.todo[0]]
  {
    hide Pos, TableOk, Recorded, Chosen, Grounded;
    var u := UndoOf(pl, t, touched);
    UndoTodo(pl, t, touched, post);
    if Lingers(u) {
      var i := Pos(Keys(pl), u.todo[0]);
      assert u.todo[0] in u.todo && Keys(pl)[i] == u.todo[0];
      assert ItemState(pl, t.rows, i) && SnapshotOk(pl, i);
    }
  }

  predicate KeepsAccepted(pl: Plan, i: nat) {
    i < pl.ups && i < |pl.snaps| && pl.snaps[i].existed
      && pl.snaps[i].restore.action == Accept && Payload(pl, i).action == Deny
    ==> Payload(pl, i).packets <= pl.snaps[i].restore.packets
  }

  /** No update that turns an ACCEPT into a DENY begins to match a packet. */
  ghost predicate AcceptTurnsWhole(pl: Plan) {
    forall i: nat :: KeepsAccepted(pl, i)
  }

  lemma TurnedWhole(pl: Plan, t: Table, touched: seq<nat>, post: seq<Post>)
    requires CleanStop(pl, t, touched, post) && AcceptTurnsWhole(pl)
    ensures AcceptTurnedWhole(UndoOf(pl, t, touched))
  {
    forall k ensures KeepsPassed(UndoOf(pl, t, touched), k) {
      if k in pl.base.rows && k in t.rows && t.rows[k] != pl.base.rows[k] {
        ChangedRow(pl, t, touched, post, k);
        assert KeepsAccepted(pl, Pos(Keys(pl), k));
      }
    }
  }
}
