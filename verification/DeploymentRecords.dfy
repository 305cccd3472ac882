/** What a run remembers about the commands it has touched, and what that says
    about the table it leaves behind. */
module DeploymentRecords {
  import opened PolicyTables
  import opened PolicyOrder
  import opened DeploymentPlans
  import opened DeploymentSafety
  import opened DeploymentSteps

  /** The observed outcome of a mutation: nothing yet, the policy is gone, or the
      policy has this key and state. `order` is the table order at that moment. */
  datatype Post = Unobserved | Gone(order: seq<MKey>) | Seen(k: MKey, state: Rule, order: seq<MKey>)

  /** A mutated command moves to the end of the mutation order. */
  function Touched(order: seq<nat>, i: nat): seq<nat> {
    Without(order, i) + [i]
  }

  function TouchedKeys(pl: Plan, touched: seq<nat>): set<MKey>
    requires |pl.snaps| == |pl.ids|
  {
    set i | i in touched && i < |pl.snaps| :: Key(pl, i)
  }

  /** Policies outside `managed` stand in `order` exactly as they do in the base. */
  ghost predicate OrderKept(pl: Plan, managed: set<MKey>, order: seq<MKey>) {
    && Distinct(order)
    && SameOrder(order, pl.base.order, pl.base.rows.Keys)
    && forall z :: z !in managed ==> (z in order <==> z in pl.base.rows)
  }

  /** An observed order lists no policy that was never in a table of the run. */
  ghost predicate KnownOrder(pl: Plan, rows: map<MKey, Row>, order: seq<MKey>) {
    forall z :: z in order ==> z in pl.base.rows || z in rows
  }

  predicate SameRow(a: map<MKey, Row>, b: map<MKey, Row>, k: MKey) {
    !Changed(a, b, k)
  }

  predicate ItemTouched(pl: Plan, rows: map<MKey, Row>, touched: seq<nat>, i: nat) {
    i < |pl.snaps| == |pl.ids| && i !in touched ==> SameRow(rows, pl.base.rows, Key(pl, i))
  }

  ghost predicate PostOk(pl: Plan, rows: map<MKey, Row>, touched: seq<nat>, post: seq<Post>, i: nat) {
    i < |post| == |pl.snaps| == |pl.ids| ==>
      match post[i]
      case Unobserved => true
      case Gone(order) =>
        && i >= pl.ups && Key(pl, i) !in rows
        && OrderKept(pl, TouchedKeys(pl, touched), order) && KnownOrder(pl, rows, order)
      case Seen(k, state, order) =>
        && i < pl.ups && k == Key(pl, i)
        && OrderKept(pl, TouchedKeys(pl, touched), order) && KnownOrder(pl, rows, order)
        && (pl.snaps[i].existed ==> k in rows && rows[k].rule == state == Payload(pl, i))
  }

  /** The `j`th touched command, if it is a DELETE, has removed its policy. */
  predicate DeleteDone(pl: Plan, rows: map<MKey, Row>, touched: seq<nat>, j: nat) {
    j < |touched| && touched[j] < |pl.snaps| == |pl.ids| && touched[j] >= pl.ups ==> Key(pl, touched[j]) !in rows
  }

  /** Only commands of the plan are touched, and a DELETE only of a policy that existed. */
  predicate InRange(pl: Plan, touched: seq<nat>, j: nat) {
    j < |touched| ==> touched[j] < |pl.snaps| && (touched[j] >= pl.ups ==> pl.snaps[touched[j]].existed)
  }

  /** The bookkeeping of a run; `settled` touched commands are known to have
      completed, which leaves at most the last one in doubt. */
  ghost predicate Recorded(pl: Plan, rows: map<MKey, Row>, touched: seq<nat>, post: seq<Post>, settled: nat) {
    && |post| == |pl.snaps| == |pl.ids|
    && Distinct(touched)
    && (forall j: nat :: InRange(pl, touched, j))
    && (forall i: nat :: ItemTouched(pl, rows, touched, i))
    && (forall i: nat :: PostOk(pl, rows, touched, post, i))
    && settled <= |touched|
    && (forall j: nat :: j < settled ==> DeleteDone(pl, rows, touched, j))
  }

  lemma TouchedFacts(pl: Plan, touched: seq<nat>, i: nat)
    requires Distinct(touched) && |pl.snaps| == |pl.ids|
    ensures Distinct(Touched(touched, i)) && |Touched(touched, i)| > 0
    ensures forall z :: z in Touched(touched, i) <==> z in touched || z == i
    ensures i < |pl.snaps| ==> TouchedKeys(pl, Touched(touched, i)) == TouchedKeys(pl, touched) + {Key(pl, i)}
    ensures forall j :: 0 <= j < |Touched(touched, i)| - 1 ==> Touched(touched, i)[j] in touched
  {
    if i in touched { WithoutFacts(touched, i); }
    AppendDistinct(Without(touched, i), i);
    forall j | 0 <= j < |Touched(touched, i)| - 1 ensures Touched(touched, i)[j] in touched {
      assert Touched(touched, i)[j] in Without(touched, i);
    }
  }

  lemma OrderKeptGrows(pl: Plan, managed: set<MKey>, more: set<MKey>, order: seq<MKey>)
    requires OrderKept(pl, managed, order) && managed <= more
    ensures OrderKept(pl, more, order)
  {
  }

  lemma LastTouched(touched: seq<nat>, i: nat)
    ensures |Touched(touched, i)| > 0 && Touched(touched, i)[|Touched(touched, i)| - 1] == i
  {
  }

  lemma TouchKeepsItem(pl: Plan, rows: map<MKey, Row>, rows': map<MKey, Row>, touched: seq<nat>, post: seq<Post>, i: nat, l: nat)
    requires PlanOk(pl) && i < |pl.snaps| == |post| && Distinct(touched)
    requires forall k :: k != Key(pl, i) ==> SameRow(rows, rows', k)
    requires rows.Keys <= rows'.Keys + pl.base.rows.Keys
    requires post[i].Unobserved? || IsNew(pl, i)
    requires ItemTouched(pl, rows, touched, l) && PostOk(pl, rows, touched, post, l)
    ensures ItemTouched(pl, rows', Touched(touched, i), l) && PostOk(pl, rows', Touched(touched, i), post, l)
  {
    hide Pos, Touched;
    var touched' := Touched(touched, i);
    TouchedFacts(pl, touched, i);
    if l < |pl.snaps| {
      if l != i {
        KeysApart(pl, l, i);
        assert SameRow(rows, rows', Key(pl, l));
      }
      if post[l].Gone? { OrderKeptGrows(pl, TouchedKeys(pl, touched), TouchedKeys(pl, touched'), post[l].order); }
      if post[l].Seen? { OrderKeptGrows(pl, TouchedKeys(pl, touched), TouchedKeys(pl, touched'), post[l].order); }
    }
  }

  lemma TouchKeepsDelete(pl: Plan, rows: map<MKey, Row>, rows': map<MKey, Row>, touched: seq<nat>, i: nat, j: nat)
    requires PlanOk(pl) && i < |pl.snaps| && Distinct(touched) && j < |Touched(touched, i)| - 1
    requires forall k :: k != Key(pl, i) ==> SameRow(rows, rows', k)
    requires forall l: nat :: InRange(pl, touched, l)
    requires forall l: nat :: l < |touched| ==> DeleteDone(pl, rows, touched, l)
    ensures DeleteDone(pl, rows', Touched(touched, i), j) && InRange(pl, Touched(touched, i), j)
  {
    var touched' := Touched(touched, i);
    TouchedFacts(pl, touched, i);
    var l := touched'[j];
    assert l in touched && InRange(pl, touched, Pos(touched, l)) && DeleteDone(pl, rows, touched, Pos(touched, l));
    assert touched'[|touched'| - 1] == i && Apart(touched', j, |touched'| - 1);
    KeysApart(pl, l, i);
    assert SameRow(rows, rows', Key(pl, l));
  }

  /** Touching command `i` and changing only its row keeps the records. */
  lemma RecordTouch(pl: Plan, rows: map<MKey, Row>, rows': map<MKey, Row>, touched: seq<nat>, post: seq<Post>, i: nat)
    requires PlanOk(pl) && i < |pl.snaps|
    requires Recorded(pl, rows, touched, post, |touched|)
    requires forall k :: k != Key(pl, i) ==> SameRow(rows, rows', k)
    requires rows.Keys <= rows'.Keys + pl.base.rows.Keys
    requires post[i].Unobserved? || IsNew(pl, i)
    requires i >= pl.ups ==> pl.snaps[i].existed
    ensures |Touched(touched, i)| > 0
    ensures Recorded(pl, rows', Touched(touched, i), post, |Touched(touched, i)| - 1)
  {
    var touched' := Touched(touched, i);
    TouchedFacts(pl, touched, i);
    LastTouched(touched, i);
    forall j: nat ensures InRange(pl, touched', j) {
      if j < |touched'| - 1 { TouchKeepsDelete(pl, rows, rows', touched, i, j); }
    }
    forall l: nat ensures ItemTouched(pl, rows', touched', l) {
      assert ItemTouched(pl, rows, touched, l) && PostOk(pl, rows, touched, post, l);
      TouchKeepsItem(pl, rows, rows', touched, post, i, l);
    }
    forall l: nat ensures PostOk(pl, rows', touched', post, l) {
      assert ItemTouched(pl, rows, touched, l) && PostOk(pl, rows, touched, post, l);
      TouchKeepsItem(pl, rows, rows', touched, post, i, l);
    }
    forall j: nat | j < |touched'| - 1 ensures DeleteDone(pl, rows', touched', j) {
      TouchKeepsDelete(pl, rows, rows', touched, i, j);
    }
  }

  /** Observing the last touched command keeps the records. */
  lemma RecordPost(pl: Plan, rows: map<MKey, Row>, touched: seq<nat>, post: seq<Post>, post': seq<Post>, i: nat)
    requires i < |pl.snaps| == |pl.ids| && touched != [] && touched[|touched| - 1] == i
    requires Recorded(pl, rows, touched, post, |touched| - 1)
    requires |post'| == |post| && forall l :: 0 <= l < |post| && l != i ==> post'[l] == post[l]
    requires PostOk(pl, rows, touched, post', i)
    ensures Recorded(pl, rows, touched, post', |touched| - 1)
    ensures i < pl.ups || Key(pl, i) !in rows ==> Recorded(pl, rows, touched, post', |touched|)
  {
    forall l: nat ensures PostOk(pl, rows, touched, post', l) {
      assert PostOk(pl, rows, touched, post, l);
    }
    forall j: nat | j < |touched| && (j < |touched| - 1 || i < pl.ups || Key(pl, i) !in rows)
      ensures DeleteDone(pl, rows, touched, j)
    {
    }
  }

  // ---------------------------------------------------------------- the tables of a run

  /** The part of a table that no run touches is as in the base. */
  ghost predicate Grounded(pl: Plan, t: Table)
    requires |pl.snaps| == |pl.ids|
  {
    && Distinct(t.order) && Elements(t.order) == t.rows.Keys
    && SameOrder(t.order, pl.base.order, pl.base.rows.Keys)
    && forall k :: k !in Keys(pl) ==> SameRow(t.rows, pl.base.rows, k)
  }

  lemma OrderOfBase(pl: Plan, order: seq<MKey>)
    requires PlanOk(pl) && SameOrder(pl.base.order, order, pl.base.rows.Keys)
    ensures SameOrder(order, pl.base.order, pl.base.rows.Keys)
  {
    forall x, y | x in pl.base.rows.Keys && y in pl.base.rows.Keys && x in order && y in order
      ensures Above(order, x, y) <==> Above(pl.base.order, x, y)
    {
      assert x in Elements(pl.base.order) && y in Elements(pl.base.order);
      assert Above(pl.base.order, x, y) <==> Above(order, x, y);
    }
  }

  lemma PreparedGrounded(pl: Plan, m: nat)
    requires PlanOk(pl) && m <= pl.ups
    ensures Grounded(pl, PreparedTable(pl, m))
  {
    FullOrderFacts(pl, m);
    OrderOfBase(pl, FullOrder(pl, m));
    forall k | k !in Keys(pl) ensures SameRow(Prepared(pl, m), pl.base.rows, k) {
      PreparedAt(pl, m, k);
      if k in NewKeys(pl, m) {
        var i: nat :| i < m && IsNew(pl, i) && pl.ids[i] == k;
        KeyIndex(pl, i);
      }
    }
  }

  lemma UnplacedGrounded(pl: Plan, m: nat)
    requires PlanOk(pl) && IsNew(pl, m)
    ensures Grounded(pl, UnplacedTable(pl, m))
  {
    var s, k := FullOrder(pl, m), pl.ids[m];
    PreparedGrounded(pl, m);
    PreparedGrounded(pl, m + 1);
    PreparedGrows(pl, m + 1);
    assert k !in Elements(s);
    AppendDistinct(s, k);
    assert SnapshotOk(pl, m);
    forall x, y | x in pl.base.rows.Keys && y in pl.base.rows.Keys && x in s + [k] && y in s + [k]
      ensures Above(s + [k], x, y) <==> Above(pl.base.order, x, y)
    {
      AppendKeepsPos(s, k, x);
      AppendKeepsPos(s, k, y);
      assert Above(s, x, y) <==> Above(pl.base.order, x, y);
    }
  }

  lemma StageGrounded(pl: Plan, done: set<MKey>)
    requires PlanOk(pl) && done <= Elements(Keys(pl))
    ensures Grounded(pl, StageTable(pl, done))
  {
    var t, full := StageTable(pl, done), FullOrder(pl, pl.ups);
    StageTableOk(pl, done);
    PreparedGrounded(pl, pl.ups);
    forall x, y | x in pl.base.rows.Keys && y in pl.base.rows.Keys && x in t.order && y in t.order
      ensures Above(t.order, x, y) <==> Above(pl.base.order, x, y)
    {
      assert x in Elements(t.order) && y in Elements(t.order);
      assert x in Elements(full) && y in Elements(full);
      OnlyAbove(full, t.rows.Keys, x, y);
      assert Above(full, x, y) <==> Above(pl.base.order, x, y);
    }
    forall k | k !in Keys(pl) ensures SameRow(t.rows, pl.base.rows, k) {
      assert k !in Elements(Keys(pl));
      assert SameRow(Prepared(pl, pl.ups), pl.base.rows, k);
    }
  }

  lemma GroundedOrder(pl: Plan, t: Table, touched: seq<nat>)
    requires PlanOk(pl) && Grounded(pl, t)
    requires forall i: nat :: ItemTouched(pl, t.rows, touched, i)
    ensures OrderKept(pl, TouchedKeys(pl, touched), t.order)
  {
    var managed := TouchedKeys(pl, touched);
    forall z | z !in managed ensures z in t.order <==> z in pl.base.rows {
      assert z in t.order <==> z in Elements(t.order);
      if z in Keys(pl) {
        var i := Pos(Keys(pl), z);
        assert Key(pl, i) == z;
        assert i !in touched;
        assert ItemTouched(pl, t.rows, touched, i);
      } else {
        assert SameRow(t.rows, pl.base.rows, z);
      }
    }
  }

  // ---------------------------------------------------------------- where new policies stand

  /** A new policy stands above the anchor, unless it was created last and its
      move is in doubt. */
  predicate InPlace(pl: Plan, t: Table, touched: seq<nat>, i: nat) {
    IsNew(pl, i) && |pl.snaps| == |pl.ids| && pl.ids[i] in t.rows ==>
      Above(t.order, pl.ids[i], pl.anchor) || (touched != [] && touched[|touched| - 1] == i)
  }

  lemma {:induction false} ChainEndsAtAnchor(pl: Plan, view: seq<MKey>, j: nat, m: nat)
    requires PlanOk(pl) && j <= pl.ups && forall i: nat :: InReviewedOrder(pl, view, i, m)
    ensures NextPresent(pl, j, m) == pl.anchor || Above(view, NextPresent(pl, j, m), pl.anchor)
  {
    hide Pos;
    if j > 0 {
      ChainEndsAtAnchor(pl, view, j - 1, m);
      assert InReviewedOrder(pl, view, j - 1, m);
    }
  }

  lemma CreatedAboveAnchor(pl: Plan, m: nat, i: nat)
    requires PlanOk(pl) && IsNew(pl, i) && i < m <= pl.ups
    ensures Above(FullOrder(pl, m), pl.ids[i], pl.anchor)
    ensures pl.ids[i] in FullOrder(pl, m) && pl.anchor in FullOrder(pl, m)
  {
    PlanSizes(pl);
    hide *;
    var order, gone := FullOrder(pl, m), DeletedKeys(pl);
    FullOrderFacts(pl, m);
    CreatedAboveInView(pl, m, i);
    NextPresentIsThere(pl, i + 1, m);
    NextPresentIsThere(pl, 0, m);
    NextOfCreated(pl, m, i);
    InElements(order);
    assert pl.ids[i] in Elements(order) && pl.anchor in Elements(order);
    OnlyAbove(order, Elements(order) - gone, pl.ids[i], pl.anchor);
  }

  lemma PlanSizes(pl: Plan)
    requires PlanOk(pl)
    ensures pl.ups <= |pl.snaps| == |pl.ids|
  {
  }

  lemma NextOfCreated(pl: Plan, m: nat, i: nat)
    requires |pl.snaps| == |pl.ids| && IsNew(pl, i) && i < m
    ensures NextPresent(pl, i + 1, m) == pl.ids[i] && NextPresent(pl, 0, m) == pl.anchor
  {
  }

  lemma CreatedAboveInView(pl: Plan, m: nat, i: nat)
    requires PlanOk(pl) && IsNew(pl, i) && i < m <= pl.ups
    ensures Above(Only(FullOrder(pl, m), Elements(FullOrder(pl, m)) - DeletedKeys(pl)), pl.ids[i], pl.anchor)
  {
    hide Pos, Only, Prepared, Distinct;
    PreparedInOrder(pl, m);
    NextOfCreated(pl, m, i);
    assert SnapshotOk(pl, i);
    ChainEndsAtAnchor(pl, View(FullOrder(pl, m), DeletedKeys(pl)), i + 1, m);
  }

  lemma PreparedInPlace(pl: Plan, m: nat, touched: seq<nat>)
    requires PlanOk(pl) && m <= pl.ups
    ensures forall i: nat :: InPlace(pl, PreparedTable(pl, m), touched, i)
  {
    hide Pos, FullOrder, Prepared;
    forall i: nat ensures InPlace(pl, PreparedTable(pl, m), touched, i) {
      if IsNew(pl, i) && pl.ids[i] in Prepared(pl, m) {
        PreparedNew(pl, m, i);
        CreatedAboveAnchor(pl, m, i);
      }
    }
  }

  lemma UnplacedInPlace(pl: Plan, m: nat, touched: seq<nat>)
    requires PlanOk(pl) && IsNew(pl, m) && touched != [] && touched[|touched| - 1] == m
    ensures forall i: nat :: InPlace(pl, UnplacedTable(pl, m), touched, i)
  {
    hide Pos, FullOrder, Prepared;
    forall i: nat ensures InPlace(pl, UnplacedTable(pl, m), touched, i) {
      if IsNew(pl, i) && pl.ids[i] in Prepared(pl, m + 1) && i != m {
        PreparedNew(pl, m + 1, i);
        CreatedAboveAnchor(pl, m, i);
        FullOrderFacts(pl, m);
        PreparedNew(pl, m, m);
        assert pl.ids[m] !in Elements(FullOrder(pl, m));
        AppendKeepsPos(FullOrder(pl, m), pl.ids[m], pl.ids[i]);
        AppendKeepsPos(FullOrder(pl, m), pl.ids[m], pl.anchor);
      }
    }
  }

  lemma StageInPlace(pl: Plan, done: set<MKey>, touched: seq<nat>)
    requires PlanOk(pl)
    ensures forall i: nat :: InPlace(pl, StageTable(pl, done), touched, i)
  {
    hide Pos, FullOrder, Prepared, Only, Final;
    var t := StageTable(pl, done);
    if pl.ups > 0 { StageAnchor(pl, done); }
    FullOrderFacts(pl, pl.ups);
    forall i: nat ensures InPlace(pl, t, touched, i) {
      if IsNew(pl, i) {
        StageRow(pl, done, i);
        CreatedAboveAnchor(pl, pl.ups, i);
        OnlyAbove(FullOrder(pl, pl.ups), t.rows.Keys, pl.ids[i], pl.anchor);
      }
    }
  }
}
