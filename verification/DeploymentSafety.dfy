/** What holds of every table a deployment passes through, and of the last one. */
module DeploymentSafety {
  import opened PolicyTables
  import opened PolicyOrder
  import opened Repositioning
  import opened DeploymentPlans

  // ---------------------------------------------------------------- the order of the prepared table

  lemma AppendDistinct(s: seq<MKey>, k: MKey)
    requires Distinct(s) && k !in s
    ensures Distinct(s + [k]) && Elements(s + [k]) == Elements(s) + {k}
    ensures Pos(s + [k], k) == |s|
    ensures forall z :: z in s ==> z in s + [k]
  {
    forall i: nat, j: nat ensures Apart(s + [k], i, j) {
      assert Apart(s, i, j);
    }
    assert (s + [k])[|s|] == k;
    PosIs(s + [k], |s|);
    assert forall z :: z in s + [k] <==> z in s || z == k;
  }

  lemma AppendKeepsPos(s: seq<MKey>, k: MKey, z: MKey)
    requires Distinct(s) && k !in s && z in s
    ensures Pos(s + [k], z) == Pos(s, z)
  {
    AppendDistinct(s, k);
    assert (s + [k])[Pos(s, z)] == z;
    PosIs(s + [k], Pos(s, z));
  }

  /** Appending a key and moving it before `succ` puts it into `succ`'s place. */
  lemma Placed(s: seq<MKey>, k: MKey, succ: MKey)
    requires Distinct(s) && k !in s && succ in s
    ensures MovedBefore(s + [k], k, succ) == Inserted(s, Pos(s, succ), k)
  {
    AppendDistinct(s, k);
    AppendKeepsPos(s, k, succ);
    assert Without(s + [k], k) == s;
  }

  lemma PlacedFacts(s: seq<MKey>, k: MKey, succ: MKey)
    requires Distinct(s) && k !in s && succ in s
    ensures var m := MovedBefore(s + [k], k, succ);
      Distinct(m) && Elements(m) == Elements(s) + {k}
    ensures forall keep :: k !in keep ==> SameOrder(s, MovedBefore(s + [k], k, succ), keep)
  {
    Placed(s, k, succ);
    InsertedFacts(s, Pos(s, succ), k);
    var m := Inserted(s, Pos(s, succ), k);
    forall keep | k !in keep ensures SameOrder(s, m, keep) {
      forall x, y | x in keep && y in keep && x in s && y in s ensures Above(s, x, y) <==> Above(m, x, y) {
        InsertedAt(s, Pos(s, succ), k, x);
        InsertedAt(s, Pos(s, succ), k, y);
      }
    }
  }

  lemma NextPresentIsThere(pl: Plan, i: nat, m: nat)
    requires PlanOk(pl) && i <= pl.ups && pl.ups > 0
    ensures NextPresent(pl, i, m) in Prepared(pl, m) && NextPresent(pl, i, m) !in DeletedKeys(pl)
  {
    if i == 0 {
      PreparedAt(pl, m, pl.anchor);
      forall j | pl.ups <= j < |pl.snaps| && pl.snaps[j].existed ensures pl.snaps[j].mkey != pl.anchor {
        assert NotTheAnchor(pl, j);
      }
    } else if PresentAt(pl, i - 1, m) {
      UpsertIsThere(pl, i - 1, m);
    } else {
      NextPresentIsThere(pl, i - 1, m);
    }
  }

  lemma UpsertIsThere(pl: Plan, i: nat, m: nat)
    requires PlanOk(pl) && PresentAt(pl, i, m)
    ensures Key(pl, i) in Prepared(pl, m) && Key(pl, i) !in DeletedKeys(pl)
  {
    assert SnapshotOk(pl, i);
    if pl.snaps[i].existed { PreparedAt(pl, m, Key(pl, i)); } else { PreparedNew(pl, m, i); }
    FinalOfUpsert(pl, i);
  }

  lemma PreparedGrows(pl: Plan, m: nat)
    requires PlanOk(pl) && 0 < m <= pl.ups
    ensures Prepared(pl, m) == if IsNew(pl, m - 1)
      then Prepared(pl, m - 1)[pl.ids[m - 1] := Row(Name(pl, m - 1), Payload(pl, m - 1).(enabled := false))]
      else Prepared(pl, m - 1)
    ensures IsNew(pl, m - 1) ==> pl.ids[m - 1] !in Prepared(pl, m - 1)
  {
    if IsNew(pl, m - 1) {
      PreparedNew(pl, m - 1, m - 1);
      PreparedNew(pl, m, m - 1);
      assert NewKeys(pl, m) == NewKeys(pl, m - 1) + {pl.ids[m - 1]};
    } else {
      assert NewKeys(pl, m) == NewKeys(pl, m - 1);
    }
    forall k ensures k in Prepared(pl, m) <==> k in pl.base.rows || k in NewKeys(pl, m)
             ensures k in Prepared(pl, m - 1) <==> k in pl.base.rows || k in NewKeys(pl, m - 1)
    {
      PreparedAt(pl, m, k);
      PreparedAt(pl, m - 1, k);
    }
  }

  lemma {:induction false} FullOrderFacts(pl: Plan, m: nat)
    requires PlanOk(pl) && m <= pl.ups
    ensures Distinct(FullOrder(pl, m)) && Elements(FullOrder(pl, m)) == Prepared(pl, m).Keys
    ensures SameOrder(pl.base.order, FullOrder(pl, m), pl.base.rows.Keys)
  {
    hide Pos, MovedBefore, Prepared;
    if m == 0 {
      assert NewKeys(pl, 0) == {};
      forall k ensures k in Prepared(pl, 0) <==> k in pl.base.rows { PreparedAt(pl, 0, k); }
    } else {
      FullOrderFacts(pl, m - 1);
      PreparedGrows(pl, m);
      if IsNew(pl, m - 1) { FullOrderStep(pl, m - 1); }
    }
  }

  lemma FullOrderStep(pl: Plan, m: nat)
    requires PlanOk(pl) && IsNew(pl, m) && Distinct(FullOrder(pl, m)) && Elements(FullOrder(pl, m)) == Prepared(pl, m).Keys
    requires SameOrder(pl.base.order, FullOrder(pl, m), pl.base.rows.Keys) && pl.ids[m] !in Prepared(pl, m)
    ensures Distinct(FullOrder(pl, m + 1)) && Elements(FullOrder(pl, m + 1)) == Prepared(pl, m).Keys + {pl.ids[m]}
    ensures SameOrder(pl.base.order, FullOrder(pl, m + 1), pl.base.rows.Keys)
  {
    hide Pos, MovedBefore, Prepared, Distinct, Above;
    var s, k, succ := FullOrder(pl, m), pl.ids[m], NextPresent(pl, m, m);
    NextPresentIsThere(pl, m, m);
    assert succ in Elements(s) && k !in Elements(s);
    PlacedFacts(s, k, succ);
    assert SnapshotOk(pl, m);
    forall z | z in pl.base.rows.Keys ensures z in s {
      PreparedAt(pl, m, z);
      assert z in Elements(s);
    }
    ChainOrders(pl.base.order, s, MovedBefore(s + [k], k, succ), pl.base.rows.Keys);
  }

  lemma ChainOrders(s: seq<MKey>, t: seq<MKey>, u: seq<MKey>, keep: set<MKey>)
    requires SameOrder(s, t, keep) && SameOrder(t, u, keep) && forall z :: z in keep ==> z in t
    ensures SameOrder(s, u, keep)
  {
    forall x, y | x in keep && y in keep && x in s && y in s ensures Above(s, x, y) <==> Above(u, x, y) {
      assert Above(s, x, y) <==> Above(t, x, y);
    }
  }

  // ---------------------------------------------------------------- preparing is harmless

  /** Disabled policies, wherever they stand, change no answer. */
  lemma InertExtension(base: Table, t: Table, p: Packet)
    requires TableOk(base) && Distinct(t.order)
    requires forall k :: k in base.rows ==> k in t.rows && t.rows[k] == base.rows[k] && k in t.order
    requires SameOrder(base.order, t.order, base.rows.Keys)
    requires forall k :: k in t.rows && k !in base.rows ==> !t.rows[k].rule.enabled
    ensures Accepts(t, p) == Accepts(base, p)
  {
    hide Pos, Only, AcceptsIn;
    var keep := base.rows.Keys;
    PassedKeysDrop(t.order, t.rows, keep, p);
    forall z | z in keep ensures z in base.order { assert z in Elements(base.order); }
    forall z | z in base.order ensures z in keep { assert z in Elements(base.order); }
    OnlyAgrees(base.order, t.order, keep);
    OnlyAll(base.order, keep);
    SameVerdictsSameAnswer(base.order, t.rows, base.rows, p);
  }

  lemma {:induction false} OnlyAll(s: seq<MKey>, keep: set<MKey>)
    requires forall z :: z in s ==> z in keep
    ensures Only(s, keep) == s
  {
    if s != [] {
      assert s[0] in s && forall z :: z in s[1..] ==> z in s;
      OnlyAll(s[1..], keep);
      assert s == [s[0]] + s[1..];
    }
  }

  /** Until the first finalisation the device answers exactly as before. */
  lemma PreparingIsHarmless(pl: Plan, m: nat, p: Packet)
    requires PlanOk(pl) && m <= pl.ups
    ensures Accepts(PreparedTable(pl, m), p) == Accepts(pl.base, p)
    ensures m < pl.ups && IsNew(pl, m) ==> Accepts(UnplacedTable(pl, m), p) == Accepts(pl.base, p)
  {
    FullOrderFacts(pl, m);
    forall k | k in pl.base.rows
      ensures k in Prepared(pl, m) && Prepared(pl, m)[k] == pl.base.rows[k] && k in FullOrder(pl, m)
      ensures k in Prepared(pl, m + 1) && Prepared(pl, m + 1)[k] == pl.base.rows[k]
    {
      PreparedAt(pl, m, k);
      PreparedAt(pl, m + 1, k);
      assert k in Elements(FullOrder(pl, m));
    }
    InertExtension(pl.base, PreparedTable(pl, m), p);
    if m < pl.ups && IsNew(pl, m) {
      var s, k := FullOrder(pl, m), pl.ids[m];
      PreparedNew(pl, m, m);
      assert k !in Elements(s);
      AppendDistinct(s, k);
      forall x, y | x in pl.base.rows.Keys && y in pl.base.rows.Keys && x in pl.base.order && y in pl.base.order
        ensures Above(pl.base.order, x, y) <==> Above(s + [k], x, y)
      {
        AppendKeepsPos(s, k, x);
        AppendKeepsPos(s, k, y);
        assert Above(pl.base.order, x, y) <==> Above(s, x, y);
      }
      InertExtension(pl.base, UnplacedTable(pl, m), p);
    }
  }

  // ---------------------------------------------------------------- the finalising phases

  predicate KeepsDenied(pl: Plan, i: nat) {
    i < pl.ups && i < |pl.snaps| && pl.snaps[i].existed
      && pl.snaps[i].restore.action == Deny && Payload(pl, i).action == Accept
    ==> pl.snaps[i].restore.packets <= Payload(pl, i).packets
  }

  /** No update that turns a DENY into an ACCEPT stops matching a packet. */
  ghost predicate DenyTurnsWhole(pl: Plan) {
    forall i: nat :: KeepsDenied(pl, i)
  }

  lemma UpsertStep(pl: Plan, i: nat)
    requires PlanOk(pl) && i < pl.ups && KeepsDenied(pl, i)
    ensures RowStepAllowed(Prepared(pl, pl.ups), Final(pl), StageOf(pl, i), Key(pl, i))
  {
    FinalOfUpsert(pl, i);
    assert SnapshotOk(pl, i);
    if pl.snaps[i].existed { PreparedAt(pl, pl.ups, Key(pl, i)); } else { PreparedNew(pl, pl.ups, i); }
  }

  lemma DeleteStep(pl: Plan, i: nat)
    requires PlanOk(pl) && pl.ups <= i < |pl.snaps| && pl.snaps[i].existed
    ensures RowStepAllowed(Prepared(pl, pl.ups), Final(pl), StageOf(pl, i), Key(pl, i))
  {
    FinalOfDelete(pl, i);
    PreparedAt(pl, pl.ups, Key(pl, i));
  }

  lemma UntouchedKey(pl: Plan, k: MKey)
    requires PlanOk(pl)
    requires k !in Keys(pl) || (Pos(Keys(pl), k) >= pl.ups && !pl.snaps[Pos(Keys(pl), k)].existed)
    ensures !Changed(Prepared(pl, pl.ups), Final(pl), k)
  {
    PreparedAt(pl, pl.ups, k);
    if k in Keys(pl) {
      var i := Pos(Keys(pl), k);
      assert SnapshotOk(pl, i);
      if k in NewKeys(pl, pl.ups) {
        var j: nat :| j < pl.ups && IsNew(pl, j) && pl.ids[j] == k;
        KeyIndex(pl, j);
      }
    } else {
      FinalOfOther(pl, k);
      if k in NewKeys(pl, pl.ups) {
        var j: nat :| j < pl.ups && IsNew(pl, j) && pl.ids[j] == k;
        KeyIndex(pl, j);
      }
    }
  }

  lemma PlanIsWellStaged(pl: Plan)
    requires PlanOk(pl) && DenyTurnsWhole(pl)
    ensures WellStaged(FullOrder(pl, pl.ups), Prepared(pl, pl.ups), Final(pl), Stages(pl))
  {
    forall k | k in FullOrder(pl, pl.ups) && Changed(Prepared(pl, pl.ups), Final(pl), k)
      ensures k in Stages(pl) && RowStepAllowed(Prepared(pl, pl.ups), Final(pl), Stages(pl)[k], k)
    {
      var i := Pos(Keys(pl), k);
      if k !in Keys(pl) || (i >= pl.ups && !pl.snaps[i].existed) {
        UntouchedKey(pl, k);
      } else if i < pl.ups {
        assert KeepsDenied(pl, i);
        UpsertStep(pl, i);
      } else {
        DeleteStep(pl, i);
      }
    }
  }

  /** Absent rows may stay in the order. */
  lemma AcceptsByOrder(order: seq<MKey>, rows: map<MKey, Row>, p: Packet)
    ensures Accepts(Table(Only(order, rows.Keys), rows), p) == AcceptsIn(order, rows, p)
  {
    PassedKeysDrop(order, rows, rows.Keys, p);
  }

  ghost predicate InPhase(pl: Plan, done: set<MKey>)
    requires |pl.snaps| == |pl.ids|
  {
    StagesInOrder(FullOrder(pl, pl.ups), Prepared(pl, pl.ups), Final(pl), Stages(pl), done)
  }

  /** Every table of the finalising phases accepts only packets that the table
      before the run or the table after it accepts. */
  lemma EveryStageIsSafe(pl: Plan, done: set<MKey>, p: Packet)
    requires PlanOk(pl) && DenyTurnsWhole(pl) && InPhase(pl, done)
    ensures Accepts(StageTable(pl, done), p) ==> Accepts(pl.base, p) || Accepts(FinalTable(pl), p)
  {
    var full, before, after := FullOrder(pl, pl.ups), Prepared(pl, pl.ups), Final(pl);
    PlanIsWellStaged(pl);
    StagedRunIsSafe(full, before, after, Stages(pl), done, p);
    AcceptsByOrder(full, Mix(before, after, done), p);
    AcceptsByOrder(full, after, p);
    PreparingIsHarmless(pl, pl.ups, p);
  }

  // ---------------------------------------------------------------- the reviewed order

  /** Inserting `k` in front of `succ` hands `succ`'s predecessor over to `k`. */
  lemma InsertedLinks(v: seq<MKey>, k: MKey, succ: MKey, x: MKey, y: MKey)
    requires Distinct(v) && k !in v && succ in v && Linked(v, x, y)
    ensures Linked(Inserted(v, Pos(v, succ), k), x, if y == succ then k else y)
    ensures Linked(Inserted(v, Pos(v, succ), k), k, succ)
  {
    var w := Inserted(v, Pos(v, succ), k);
    InsertedFacts(v, Pos(v, succ), k);
    InsertedAt(v, Pos(v, succ), k, x);
    InsertedAt(v, Pos(v, succ), k, y);
    InsertedAt(v, Pos(v, succ), k, succ);
    if y != succ { PosApart(v, y, succ); }
  }

  /** Leaving policies out of the view commutes with inserting one that is kept. */
  lemma ViewOfInserted(s: seq<MKey>, gone: set<MKey>, k: MKey, succ: MKey)
    requires Distinct(s) && k !in s && k !in gone && succ in s && succ !in gone
    ensures var v := View(s, gone);
      && Distinct(v) && k !in v && succ in v
      && View(Inserted(s, Pos(s, succ), k), gone) == Inserted(v, Pos(v, succ), k)
  {
    hide Pos, Inserted, Only;
    var m, v := Inserted(s, Pos(s, succ), k), View(s, gone);
    InsertedFacts(s, Pos(s, succ), k);
    OnlyFacts(s, Elements(s) - gone);
    InsertedFacts(v, Pos(v, succ), k);
    OnlyFacts(m, Elements(m) - gone);
    var a, b := View(m, gone), Inserted(v, Pos(v, succ), k);
    assert Elements(m) == Elements(s) + {k};
    assert Elements(a) == Elements(b);
    forall x, y | x in Elements(a) && y in Elements(a) && x in a && y in a
      ensures Above(a, x, y) <==> Above(b, x, y)
    {
      OnlyAbove(m, Elements(m) - gone, x, y);
      InsertedAbove(s, gone, k, succ, x, y);
    }
    OrderDetermines(a, b);
  }

  lemma InsertedAbove(s: seq<MKey>, gone: set<MKey>, k: MKey, succ: MKey, x: MKey, y: MKey)
    requires Distinct(s) && k !in s && k !in gone && succ in s && succ !in gone
    requires (x == k || x in s) && (y == k || y in s) && x !in gone && y !in gone
    ensures var v := View(s, gone);
      && succ in v && k !in v
      && (Above(Inserted(s, Pos(s, succ), k), x, y) <==> Above(Inserted(v, Pos(v, succ), k), x, y))
  {
    hide Pos;
    var keep := Elements(s) - gone;
    var v := View(s, gone);
    OnlyFacts(s, keep);
    InsertedFacts(s, Pos(s, succ), k);
    InsertedFacts(v, Pos(v, succ), k);
    if x != k {
      InsertedAt(s, Pos(s, succ), k, x);
      InsertedAt(v, Pos(v, succ), k, x);
      OnlyAbove(s, keep, x, succ);
      OnlyAbove(s, keep, succ, x);
    }
    if y != k {
      InsertedAt(s, Pos(s, succ), k, y);
      InsertedAt(v, Pos(v, succ), k, y);
      OnlyAbove(s, keep, y, succ);
      OnlyAbove(s, keep, succ, y);
    }
    if x != k && y != k { OnlyAbove(s, keep, x, y); }
  }

  /** Creating the policy between `i` and its successor makes it `i`'s successor. */
  lemma {:induction false} NextPresentGrows(pl: Plan, i: nat, m: nat)
    requires PlanOk(pl) && m < i <= pl.ups && IsNew(pl, m)
    ensures NextPresent(pl, i, m + 1)
         == if NextPresent(pl, i, m) == NextPresent(pl, m, m) then pl.ids[m] else NextPresent(pl, i, m)
  {
    assert SnapshotOk(pl, i - 1) && SnapshotOk(pl, m);
    if i - 1 == m {
    } else if PresentAt(pl, i - 1, m) {
      KeyNotBelow(pl, i - 1, m);
    } else {
      NextPresentGrows(pl, i - 1, m);
    }
  }

  /** No policy of the block stands for two places in it. */
  lemma {:induction false} KeyNotBelow(pl: Plan, i: nat, j: nat)
    requires PlanOk(pl) && j <= i < pl.ups && PresentAt(pl, i, j)
    ensures Key(pl, i) != NextPresent(pl, j, j)
  {
    if j == 0 {
      assert NotTheAnchor(pl, i) && SnapshotOk(pl, i);
    } else {
      KeyIndex(pl, i);
      KeyIndex(pl, j - 1);
    }
  }

  /** While the missing policies are created bottom-up, every policy of the
      block that is present stands directly before the next one present. */
  lemma {:induction false} PreparedInOrder(pl: Plan, m: nat)
    requires PlanOk(pl) && m <= pl.ups
    ensures BlockInOrder(pl, FullOrder(pl, m), m)
    decreases m
  {
    if m > 0 {
      PreparedInOrder(pl, m - 1);
      forall i: nat ensures InReviewedOrder(pl, View(FullOrder(pl, m), DeletedKeys(pl)), i, m) {
        if PresentAt(pl, i, m) {
          if IsNew(pl, m - 1) {
            PlacedInOrder(pl, m, i);
          } else {
            SamePresence(pl, i, m);
            assert InReviewedOrder(pl, View(FullOrder(pl, m - 1), DeletedKeys(pl)), i, m - 1);
          }
        }
      }
    }
  }

  lemma {:induction false} SamePresence(pl: Plan, i: nat, m: nat)
    requires PlanOk(pl) && 0 < m <= pl.ups && i <= pl.ups && !IsNew(pl, m - 1)
    ensures NextPresent(pl, i, m) == NextPresent(pl, i, m - 1)
    ensures PresentAt(pl, i, m) <==> PresentAt(pl, i, m - 1)
  {
    if i > 0 { SamePresence(pl, i - 1, m); }
  }

  lemma {:induction false} NextBelow(pl: Plan, i: nat, m: nat)
    requires PlanOk(pl) && i < m <= pl.ups
    ensures NextPresent(pl, i, m) == NextPresent(pl, i, m - 1)
  {
    if i > 0 { NextBelow(pl, i - 1, m); }
  }

  lemma PlacedInOrder(pl: Plan, m: nat, i: nat)
    requires PlanOk(pl) && 0 < m <= pl.ups && IsNew(pl, m - 1) && PresentAt(pl, i, m)
    requires BlockInOrder(pl, FullOrder(pl, m - 1), m - 1)
    ensures InReviewedOrder(pl, View(FullOrder(pl, m), DeletedKeys(pl)), i, m)
  {
    hide Pos, Inserted, MovedBefore, Only;
    var s, k, succ, gone := FullOrder(pl, m - 1), pl.ids[m - 1], NextPresent(pl, m - 1, m - 1), DeletedKeys(pl);
    var v := View(s, gone);
    NextIsPlaced(pl, m);
    if i == m - 1 {
      NextBelow(pl, i, m);
      SelfLinks(v, k, succ);
    } else {
      assert InReviewedOrder(pl, v, i, m - 1);
      InsertedLinks(v, k, succ, Key(pl, i), NextPresent(pl, i, m - 1));
      if i < m - 1 {
        NextBelow(pl, i, m);
        LowerSuccessor(pl, i, m - 1);
      } else {
        NextPresentGrows(pl, i, m - 1);
      }
    }
  }

  lemma SelfLinks(v: seq<MKey>, k: MKey, succ: MKey)
    requires Distinct(v) && k !in v && succ in v
    ensures Linked(Inserted(v, Pos(v, succ), k), k, succ)
  {
    InsertedFacts(v, Pos(v, succ), k);
    InsertedAt(v, Pos(v, succ), k, succ);
  }

  lemma NextIsPlaced(pl: Plan, m: nat)
    requires PlanOk(pl) && 0 < m <= pl.ups && IsNew(pl, m - 1)
    ensures var k, succ, v := pl.ids[m - 1], NextPresent(pl, m - 1, m - 1), View(FullOrder(pl, m - 1), DeletedKeys(pl));
      Distinct(v) && k !in v && succ in v && View(FullOrder(pl, m), DeletedKeys(pl)) == Inserted(v, Pos(v, succ), k)
  {
    hide Pos, Inserted, MovedBefore, Only, Prepared, AboveOf, Below;
    var s, k, succ := FullOrder(pl, m - 1), pl.ids[m - 1], NextPresent(pl, m - 1, m - 1);
    FullOrderFacts(pl, m - 1);
    NextPresentIsThere(pl, m - 1, m - 1);
    PreparedGrows(pl, m);
    UpsertIsThere(pl, m - 1, m);
    assert succ in Elements(s) && k !in Elements(s);
    Placed(s, k, succ);
    ViewOfInserted(s, DeletedKeys(pl), k, succ);
  }

  /** The place that policy `m` takes is not the one below an earlier policy. */
  lemma LowerSuccessor(pl: Plan, i: nat, m: nat)
    requires PlanOk(pl) && i < m <= pl.ups
    ensures NextPresent(pl, i, m) != NextPresent(pl, m, m)
  {
    hide Pos;
    KeyIndex(pl, m - 1);
    assert PresentAt(pl, m - 1, m);
    if i == 0 {
      assert NotTheAnchor(pl, m - 1) && SnapshotOk(pl, m - 1);
    } else {
      KeyIndex(pl, i - 1);
    }
  }

  lemma {:induction false} AllPresent(pl: Plan, i: nat)
    requires PlanOk(pl) && i < pl.ups
    ensures PresentAt(pl, i, pl.ups)
    ensures NextPresent(pl, i, pl.ups) == if i == 0 then pl.anchor else Key(pl, i - 1)
  {
  }

  /** The run ends in the reviewed state: every managed policy carries its
      reviewed row, every removed one is gone, device-local policies keep their
      rows and their order, and the managed block is contiguous, in reviewed
      order, and ends directly before the anchor. */
  lemma DeploymentReachesReviewedState(pl: Plan)
    requires PlanOk(pl)
    ensures forall i :: 0 <= i < pl.ups ==> Key(pl, i) in Final(pl) && Final(pl)[Key(pl, i)] == Row(Name(pl, i), Payload(pl, i))
    ensures forall k :: k in DeletedKeys(pl) ==> k !in Final(pl)
    ensures forall k :: k !in Keys(pl) ==> (k in Final(pl) <==> k in pl.base.rows) && (k in Final(pl) ==> Final(pl)[k] == pl.base.rows[k])
    ensures Distinct(FinalTable(pl).order) && Elements(FinalTable(pl).order) == Final(pl).Keys
    ensures SameOrder(pl.base.order, FinalTable(pl).order, pl.base.rows.Keys - DeletedKeys(pl))
    ensures forall i :: 0 <= i < pl.ups ==> Linked(FinalTable(pl).order, Key(pl, i), if i == 0 then pl.anchor else Key(pl, i - 1))
  {
    var full := FullOrder(pl, pl.ups);
    FullOrderFacts(pl, pl.ups);
    FinalKeys(pl);
    OnlyFacts(full, Final(pl).Keys);
    assert Elements(full) - DeletedKeys(pl) == Final(pl).Keys;
    forall i | 0 <= i < pl.ups
      ensures Key(pl, i) in Final(pl) && Final(pl)[Key(pl, i)] == Row(Name(pl, i), Payload(pl, i))
      ensures Linked(FinalTable(pl).order, Key(pl, i), if i == 0 then pl.anchor else Key(pl, i - 1))
    {
      FinalOfUpsert(pl, i);
      FinalBlockLinked(pl, i);
    }
    forall k | k !in Keys(pl)
      ensures (k in Final(pl) <==> k in pl.base.rows) && (k in Final(pl) ==> Final(pl)[k] == pl.base.rows[k])
    {
      FinalOfOther(pl, k);
    }
    var kept := pl.base.rows.Keys - DeletedKeys(pl);
    forall x, y | x in kept && y in kept && x in pl.base.order && y in pl.base.order
      ensures Above(pl.base.order, x, y) <==> Above(FinalTable(pl).order, x, y)
    {
      PreparedAt(pl, pl.ups, x);
      PreparedAt(pl, pl.ups, y);
      assert x in Elements(full) && y in Elements(full);
      OnlyAbove(full, Final(pl).Keys, x, y);
      assert Above(pl.base.order, x, y) <==> Above(full, x, y);
    }
  }

  lemma FinalBlockLinked(pl: Plan, i: nat)
    requires PlanOk(pl) && i < pl.ups
    ensures Linked(FinalTable(pl).order, Key(pl, i), if i == 0 then pl.anchor else Key(pl, i - 1))
  {
    var full := FullOrder(pl, pl.ups);
    FullOrderFacts(pl, pl.ups);
    FinalKeys(pl);
    assert Elements(full) - DeletedKeys(pl) == Final(pl).Keys;
    PreparedInOrder(pl, pl.ups);
    AllPresent(pl, i);
    assert InReviewedOrder(pl, View(full, DeletedKeys(pl)), i, pl.ups);
  }

  lemma FinalKeys(pl: Plan)
    requires PlanOk(pl)
    ensures Final(pl).Keys == Prepared(pl, pl.ups).Keys - DeletedKeys(pl)
  {
    forall k ensures k in Final(pl) <==> k in Prepared(pl, pl.ups) && k !in DeletedKeys(pl) {
      PreparedAt(pl, pl.ups, k);
      if k in NewKeys(pl, pl.ups) {
        var j: nat :| j < pl.ups && IsNew(pl, j) && pl.ids[j] == k;
        FinalOfUpsert(pl, j);
      }
    }
  }
}
