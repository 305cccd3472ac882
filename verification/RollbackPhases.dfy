/** The order in which a rollback undoes its commands, and why that order is safe. */
module RollbackPhases {
  import opened PolicyTables
  import opened PolicyOrder
  import opened DeploymentPlans
  import opened DeploymentRecords
  import opened RollbackTables
  import opened RollbackSafety
  import opened RollbackPlans

  function KeysWith(pl: Plan, touched: seq<nat>, kinds: set<Kind>): set<MKey>
    requires |pl.snaps| == |pl.ids|
  {
    set i | i in touched && IsKind(pl, kinds, i) :: Key(pl, i)
  }

  function KindRank(kind: Kind): nat {
    match kind
    case ExistingDeny => 0
    case DeletedDeny => 0
    case NewAccept => 0
    case ExistingAccept => 1
    case DeletedAccept => 1
    case NewDeny => 2
  }

  /** All kinds of lower rank have been dealt with, and none of higher rank. */
  ghost predicate Reached(kinds: set<Kind>, kind: Kind) {
    && (forall q :: q in kinds ==> KindRank(q) <= KindRank(kind))
    && (forall q :: KindRank(q) < KindRank(kind) ==> q in kinds)
  }

  lemma ChangedOwner(pl: Plan, start: Table, touched: seq<nat>, post: seq<Post>, k: MKey)
    requires CleanStop(pl, start, touched, post)
    requires k in AllKeys(UndoOf(pl, start, touched)) && Changed(Revived(UndoOf(pl, start, touched)), pl.base.rows, k)
    ensures var i := Pos(Keys(pl), k);
      && i in touched && i < |pl.snaps| && Key(pl, i) == k && IsKind(pl, {KindOf(pl.snaps[i])}, i)
      && StageRank(UndoStage(UndoOf(pl, start, touched), k)) == KindRank(KindOf(pl.snaps[i]))
  {
    hide Pos, TableOk, Grounded, Recorded;
    var u := UndoOf(pl, start, touched);
    ChangedIsTouched(pl, start, touched, post, k);
    var i := Pos(Keys(pl), k);
    assert SnapshotOk(pl, i);
    if k !in pl.base.rows {
      AddedRow(pl, start, touched, post, k);
    } else if k in start.rows {
      ChangedRow(pl, start, touched, post, k);
    } else {
      RemovedRow(pl, start, touched, post, k);
    }
  }

  lemma WithKind(pl: Plan, touched: seq<nat>, kinds: set<Kind>, i: nat)
    requires PlanOk(pl) && i in touched && i < |pl.snaps|
    ensures Key(pl, i) in KeysWith(pl, touched, kinds) <==> KindOf(pl.snaps[i]) in kinds
  {
    hide Pos;
    if Key(pl, i) in KeysWith(pl, touched, kinds) {
      var j :| j in touched && IsKind(pl, kinds, j) && Key(pl, j) == Key(pl, i);
      if i != j { KeysApart(pl, i, j); }
    }
    if KindOf(pl.snaps[i]) in kinds { assert IsKind(pl, kinds, i); }
  }

  /** Undoing the commands of one kind keeps to the stages. */
  lemma KindsInPhase(pl: Plan, start: Table, touched: seq<nat>, post: seq<Post>, kinds: set<Kind>, kind: Kind, done: set<MKey>)
    requires CleanStop(pl, start, touched, post) && Reached(kinds, kind)
    requires KeysWith(pl, touched, kinds) <= done <= KeysWith(pl, touched, kinds + {kind})
    ensures UndoInPhase(UndoOf(pl, start, touched), done)
  {
    hide Pos, TableOk, Grounded, Recorded, Reordered, KeysWith, KindOf, UndoStage, CleanStop, AllKeys;
    CleanStopFacts(pl, start, touched, post);
    var u := UndoOf(pl, start, touched);
    var stages := UndoStages(u);
    forall j, k | j in stages && k in stages && j in done && Changed(Revived(u), u.base.rows, j)
      && Changed(Revived(u), u.base.rows, k) && StageRank(stages[k]) < StageRank(stages[j])
      ensures k in done
    {
      ChangedOwner(pl, start, touched, post, j);
      ChangedOwner(pl, start, touched, post, k);
      WithKind(pl, touched, kinds + {kind}, Pos(Keys(pl), j));
      WithKind(pl, touched, kinds, Pos(Keys(pl), k));
    }
  }

  const EVERY_KIND: set<Kind> := {DeletedDeny, DeletedAccept, ExistingDeny, ExistingAccept, NewDeny, NewAccept}

  /** Once every kind is dealt with the table is the snapshot's. */
  lemma KindsComplete(pl: Plan, start: Table, touched: seq<nat>, post: seq<Post>, done: set<MKey>)
    requires CleanStop(pl, start, touched, post) && done == KeysWith(pl, touched, EVERY_KIND)
    ensures UndoTable(UndoOf(pl, start, touched), done) == pl.base
  {
    hide Pos, TableOk, Grounded, Recorded, Reordered, KeysWith, AllKeys;
    var u := UndoOf(pl, start, touched);
    UndoOfOk(pl, start, touched, post);
    forall k | k in AllKeys(u) && Changed(Revived(u), u.base.rows, k) ensures k in done {
      ChangedOwner(pl, start, touched, post, k);
      WithKind(pl, touched, EVERY_KIND, Pos(Keys(pl), k));
    }
    UndoEnds(u, done);
  }

  lemma KeysWithMore(pl: Plan, touched: seq<nat>, kinds: set<Kind>, kind: Kind, list: seq<nat>, j: nat)
    requires PlanOk(pl) && Distinct(touched) && list == Chosen(pl, touched, {kind}) && j <= |list| && kind !in kinds
    ensures Listed(pl, list)
    ensures var done := KeysWith(pl, touched, kinds) + Elements(KeysOf(pl, list)[..j]);
      && KeysWith(pl, touched, kinds) <= done <= KeysWith(pl, touched, kinds + {kind})
      && (j == |list| ==> done == KeysWith(pl, touched, kinds + {kind}))
      && (j < |list| ==> (list[j] in touched && IsKind(pl, {kind}, list[j]) && Key(pl, list[j]) !in done))
      && (j < |list| ==> Elements(KeysOf(pl, list)[..j + 1]) == Elements(KeysOf(pl, list)[..j]) + {Key(pl, list[j])})
  {
    hide Pos, Chosen;
    ChosenFacts(pl, touched, {kind});
    ChosenInRange(pl, touched, {kind});
    KeysOfDistinct(pl, list);
    var ks := KeysOf(pl, list);
    forall k | k in ks[..j] ensures k in KeysWith(pl, touched, kinds + {kind}) {
      assert list[Pos(ks[..j], k)] in list;
    }
    if j < |list| {
      assert ks[..j + 1] == ks[..j] + [ks[j]];
      assert list[j] in list;
      forall l | 0 <= l < j ensures ks[l] != ks[j] { assert Apart(ks, l, j); }
      WithKind(pl, touched, kinds, list[j]);
    } else {
      assert ks[..j] == ks;
      forall k | k in KeysWith(pl, touched, kinds + {kind}) && k !in KeysWith(pl, touched, kinds) ensures k in ks {
        var i :| i in touched && IsKind(pl, kinds + {kind}, i) && Key(pl, i) == k;
        assert !IsKind(pl, kinds, i) && IsKind(pl, {kind}, i);
      }
    }
  }
}
