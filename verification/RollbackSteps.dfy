/** Attributing the outcome of every mutation, and undoing one mutation. */
module RollbackSteps {
  import opened PolicyTables
  import opened PolicyOrder
  import opened Repositioning
  import opened DeploymentPlans
  import opened DeploymentSteps
  import opened DeploymentRecords
  import opened Devices
  import opened RollbackTables
  import opened RollbackSafety
  import opened RollbackPlans

  // ---------------------------------------------------------------- attribution

  datatype Attribution = NoEffect | Bound(post: Post) | Unattributable

  /** What the device shows of a command whose outcome may be in doubt: nothing
      happened, the reviewed change happened, or somebody else was there. */
  function Attribute(t: Table, s: Snapshot, post: Post): Attribution {
    var found := Find(t, s.command.name);
    if !s.existed && s.command.operation == Upsert then
      match found
      case Missing => NoEffect
      case Ambiguous => Unattributable
      case Found(k) =>
        if k !in t.rows || (post.Seen? && post.k != k) then Unattributable
        else if t.rows[k].rule == CreatePayload(s) || t.rows[k].rule == s.command.payload
          then Bound(Seen(k, t.rows[k].rule, t.order))
        else Unattributable
    else if !post.Unobserved? then Bound(post)
    else
      match found
      case Ambiguous => Unattributable
      case Missing => if s.command.operation == Delete then Bound(Gone(t.order)) else Unattributable
      case Found(k) =>
        if k !in t.rows then Unattributable
        else if s.existed && k == s.mkey && t.rows[k].rule == s.restore then NoEffect
        else if s.command.operation == Delete || t.rows[k].rule != s.command.payload || k != s.mkey then Unattributable
        else Bound(Seen(k, s.command.payload, t.order))
  }

  /** A created policy is as it was prepared or as it was reviewed. */
  ghost predicate OwnCreation(live: Rule, k: MKey, s: Snapshot, post: Post) {
    && (post.Seen? ==> post.k == k)
    && (live == s.command.payload || live == s.command.payload.(enabled := false))
  }

  /** An existing policy is as it was, or an UPSERT has made it what was reviewed. */
  ghost predicate OwnChange(live: Rule, k: MKey, s: Snapshot) {
    s.existed && k == s.mkey && (live == s.restore || (s.command.operation == Upsert && live == s.command.payload))
  }

  /** The policy of the command is where nobody but this run can have left it. */
  ghost predicate LeftByRun(t: Table, s: Snapshot, post: Post) {
    if s.command.operation == Upsert && !s.existed then
      && AtMostOnce(t, s.command.name)
      && forall k :: Bears(t, k, s.command.name) ==> OwnCreation(t.rows[k].rule, k, s, post)
    else if !post.Unobserved? then true
    else
      && AtMostOnce(t, s.command.name)
      && (forall k :: Bears(t, k, s.command.name) ==> OwnChange(t.rows[k].rule, k, s))
      && (s.command.operation == Upsert ==> exists k :: Bears(t, k, s.command.name))
  }

  /** The table shows that the command had no effect. */
  ghost predicate Untouched(t: Table, s: Snapshot, post: Post) {
    if s.command.operation == Upsert && !s.existed then forall k :: !Bears(t, k, s.command.name)
    else post.Unobserved? && Bears(t, s.mkey, s.command.name) && t.rows[s.mkey].rule == s.restore
  }

  /** What is known of the command from now on: the outcome the table shows. */
  ghost predicate ShownBy(t: Table, s: Snapshot, post: Post, now: Post) {
    if !post.Unobserved? && !(s.command.operation == Upsert && !s.existed) then now == post
    else
      match now
      case Unobserved => false
      case Gone(order) => s.command.operation == Delete && order == t.order && forall k :: !Bears(t, k, s.command.name)
      case Seen(k, state, order) => s.command.operation == Upsert && order == t.order && Bears(t, k, s.command.name) && t.rows[k].rule == state
  }

  /** Every command in the list is as this run can have left it. */
  ghost predicate AllLeft(pl: Plan, t: Table, touched: seq<nat>, post: seq<Post>) {
    forall j :: 0 <= j < |touched| && touched[j] < |pl.snaps| && touched[j] < |post| ==> LeftByRun(t, pl.snaps[touched[j]], post[touched[j]])
  }

  /** The outcome `now` still shows, nobody has reordered other policies, and the
      policy is there to be undone, or gone to be recreated. */
  ghost predicate StillShown(t: Table, s: Snapshot, post: Post, now: Post, controlled: set<MKey>) {
    && LeftByRun(t, s, post) && !Untouched(t, s, post) && ShownBy(t, s, post, now) && !now.Unobserved?
    && View(now.order, controlled) == View(t.order, controlled)
    && AtMostOnce(t, s.command.name)
    && if s.command.operation == Delete then s.existed && now.Gone? && forall k :: !Bears(t, k, s.command.name)
       else now.Seen? && Bears(t, now.k, s.command.name) && t.rows[now.k].rule == now.state
  }

  ghost predicate MayUndo(t: Table, s: Snapshot, post: Post, controlled: set<MKey>) {
    exists now :: StillShown(t, s, post, now, controlled)
  }

  ghost predicate IsRestored(live: Rule, k: MKey, s: Snapshot) {
    if s.command.operation == Delete then k == s.mkey && live == s.restore.(enabled := false) else live == s.restore
  }

  /** A deleted policy is back, disabled; an updated one is as it was; a created one is gone. */
  ghost predicate IsUndone(t: Table, s: Snapshot) {
    if s.existed then
      AtMostOnce(t, s.command.name) && exists k :: Bears(t, k, s.command.name) && IsRestored(t.rows[k].rule, k, s)
    else forall k :: !Bears(t, k, s.command.name)
  }

  /** An outcome is attributed exactly if nobody else was there. */
  lemma AttributeIs(t: Table, s: Snapshot, post: Post)
    requires EachOnce(t)
    ensures var a := Attribute(t, s, post);
      && (!a.Unattributable? <==> LeftByRun(t, s, post))
      && (a.NoEffect? <==> LeftByRun(t, s, post) && Untouched(t, s, post))
      && (a.Bound? ==> ShownBy(t, s, post, a.post))
  {
    hide Find;
    FindIs(t, s.command.name);
    match Find(t, s.command.name)
    case Missing =>
    case Ambiguous =>
    case Found(k) => assert Bears(t, k, s.command.name);
  }

  /** A correct attribution, in terms of the table the rollback starts from. */
  ghost predicate Attributed(pl: Plan, start: Table, touched: seq<nat>, post: seq<Post>, noop: set<nat>, i: nat) {
    i in touched && i < |pl.snaps| == |pl.ids| == |post| ==>
      var k := Key(pl, i);
      if i in noop then SameRow(start.rows, pl.base.rows, k)
      else
        && !post[i].Unobserved?
        && OrderKept(pl, TouchedKeys(pl, touched), post[i].order) && KnownOrder(pl, start.rows, post[i].order)
        && if i >= pl.ups then post[i].Gone? && k !in start.rows
           else post[i].Seen? && post[i].k == k && k in start.rows && start.rows[k].rule == post[i].state
  }

  lemma AbsentName(pl: Plan, t: Table, touched: seq<nat>, post: seq<Post>, i: nat)
    requires CleanStop(pl, t, touched, post) && i < |pl.snaps| && Key(pl, i) !in t.rows
    ensures Find(t, Name(pl, i)) == Missing
  {
    hide Pos, Find, TableOk, Grounded, Recorded;
    forall k | k in t.rows ensures t.rows[k].name != Name(pl, i) {
      OtherName(pl, t, touched, post, i, k);
    }
    FindNothing(t, Name(pl, i));
  }

  /** No other policy carries the name of a command. */
  lemma OtherName(pl: Plan, t: Table, touched: seq<nat>, post: seq<Post>, i: nat, k: MKey)
    requires CleanStop(pl, t, touched, post) && i < |pl.snaps| && k in t.rows && k != Key(pl, i)
    ensures t.rows[k].name != Name(pl, i)
  {
    hide Pos, Find, Grounded, Recorded;
    assert SnapshotOk(pl, i);
    if k in pl.base.rows {
      UndoNames(pl, t, touched, post, k, k);
      assert KeepsName(UndoOf(pl, t, touched), k);
      if pl.snaps[i].existed { assert NamesApart(pl.base.rows, k, Key(pl, i)); }
    } else {
      AddedRow(pl, t, touched, post, k);
      var j := Pos(Keys(pl), k);
      assert CommandsApart(pl, i, j);
    }
  }

  /** After a stopped run every touched command can be attributed, correctly. */
  lemma StoppedIsAttributable(pl: Plan, t: Table, touched: seq<nat>, post: seq<Post>, i: nat)
    requires CleanStop(pl, t, touched, post) && i in touched && i < |pl.snaps| == |post|
    ensures var a := Attribute(t, pl.snaps[i], post[i]);
      && !a.Unattributable?
      && Attributed(pl, t, touched, if a.Bound? then post[i := a.post] else post, if a.NoEffect? then {i} else {}, i)
  {
    hide Pos, Find, TableOk;
    var s, k := pl.snaps[i], Key(pl, i);
    GroundedOrder(pl, t, touched);
    assert KnownOrder(pl, t.rows, t.order) by {
      forall z | z in t.order ensures z in t.rows { assert z in Elements(t.order); }
    }
    assert SnapshotOk(pl, i) && ItemState(pl, t.rows, i) && PostOk(pl, t.rows, touched, post, i);
    assert InRange(pl, touched, Pos(touched, i));
    if k in t.rows {
      assert t.rows[k].name == Name(pl, i);
      FindKey(t, k);
    } else {
      AbsentName(pl, t, touched, post, i);
    }
  }

  // ---------------------------------------------------------------- unmanaged order

  /** The keys a rollback knows to belong to the commands it undoes. */
  function Controlled(pl: Plan, touched: seq<nat>, post: seq<Post>): set<MKey> {
    (set i | i in touched && i < |pl.snaps| && pl.snaps[i].existed :: pl.snaps[i].mkey)
    + (set i | i in touched && i < |post| && post[i].Seen? :: post[i].k)
  }

  ghost predicate NamesKey(pl: Plan, post: seq<Post>, i: nat, k: MKey) {
    (i < |pl.snaps| && pl.snaps[i].existed && pl.snaps[i].mkey == k) || (i < |post| && post[i].Seen? && post[i].k == k)
  }

  /** Controlled are exactly the policies that a touched command names: the one the
      snapshot saw, and the one that was seen after the write. */
  lemma ControlledAre(pl: Plan, touched: seq<nat>, post: seq<Post>, k: MKey)
    ensures k in Controlled(pl, touched, post) <==> exists i :: i in touched && NamesKey(pl, post, i, k)
  {
  }

  /** The policies outside `controlled` stand in the same order in both. */
  predicate Undisturbed(was: seq<MKey>, now: seq<MKey>, controlled: set<MKey>) {
    View(was, controlled) == View(now, controlled)
  }

  ghost predicate Unmanaged(pl: Plan, touched: seq<nat>, z: MKey)
    requires |pl.snaps| == |pl.ids|
  {
    z in pl.base.rows && z !in TouchedKeys(pl, touched)
  }

  /** An order whose uncontrolled part is the untouched part of the base. */
  ghost predicate Backed(pl: Plan, touched: seq<nat>, controlled: set<MKey>, order: seq<MKey>)
    requires |pl.snaps| == |pl.ids|
  {
    && Distinct(order)
    && (forall z :: z in order && z !in controlled ==> Unmanaged(pl, touched, z))
    && (forall z :: Unmanaged(pl, touched, z) ==> z in order && z !in controlled)
    && SameOrder(order, pl.base.order, pl.base.rows.Keys - TouchedKeys(pl, touched))
  }

  lemma BackedAgree(pl: Plan, touched: seq<nat>, controlled: set<MKey>, was: seq<MKey>, now: seq<MKey>)
    requires |pl.snaps| == |pl.ids| && Backed(pl, touched, controlled, was) && Backed(pl, touched, controlled, now)
    ensures Undisturbed(was, now, controlled)
  {
    hide Pos, Only;
    var a, b := View(was, controlled), View(now, controlled);
    OnlyFacts(was, Elements(was) - controlled);
    OnlyFacts(now, Elements(now) - controlled);
    forall z ensures z in a <==> Unmanaged(pl, touched, z)
             ensures z in b <==> Unmanaged(pl, touched, z)
    {
    }
    forall x, y | x in Elements(a) && y in Elements(a) && x in a && y in a
      ensures Above(a, x, y) <==> Above(b, x, y)
    {
      OnlyAbove(was, Elements(was) - controlled, x, y);
      OnlyAbove(now, Elements(now) - controlled, x, y);
      assert Above(was, x, y) <==> Above(pl.base.order, x, y);
      assert Above(now, x, y) <==> Above(pl.base.order, x, y);
    }
    OrderDetermines(a, b);
  }

  ghost predicate AllAttributed(pl: Plan, start: Table, touched: seq<nat>, post: seq<Post>, noop: set<nat>) {
    forall i: nat :: Attributed(pl, start, touched, post, noop, i)
  }

  /** A policy known to the run is controlled, or it is not part of the table. */
  lemma ControlledKeys(pl: Plan, start: Table, touched: seq<nat>, post0: seq<Post>, post: seq<Post>, noop: set<nat>, z: MKey)
    requires CleanStop(pl, start, touched, post0) && |post| == |pl.snaps|
    requires AllAttributed(pl, start, touched, post, noop)
    requires forall i: nat :: i in touched && i < |post| && post[i].Seen? ==> post[i].k == Key(pl, i)
    ensures z in Controlled(pl, touched, post) ==> z in TouchedKeys(pl, touched)
    ensures z in TouchedKeys(pl, touched) && (z in pl.base.rows || z in start.rows) ==> z in Controlled(pl, touched, post)
  {
    hide Pos, TableOk, Grounded;
    if z in Controlled(pl, touched, post) {
      if i :| i in touched && i < |pl.snaps| && pl.snaps[i].existed && pl.snaps[i].mkey == z {
        assert Key(pl, i) == z;
      } else {
        var i :| i in touched && i < |post| && post[i].Seen? && post[i].k == z;
        assert Key(pl, i) == z;
      }
    }
    if z in TouchedKeys(pl, touched) && (z in pl.base.rows || z in start.rows) {
      var i :| i in touched && i < |pl.snaps| && Key(pl, i) == z;
      assert Attributed(pl, start, touched, post, noop, i) && SnapshotOk(pl, i);
      assert InRange(pl, touched, Pos(touched, i));
    }
  }

  lemma ObservedIsBacked(pl: Plan, start: Table, touched: seq<nat>, post0: seq<Post>, post: seq<Post>, noop: set<nat>, order: seq<MKey>)
    requires CleanStop(pl, start, touched, post0) && |post| == |pl.snaps|
    requires AllAttributed(pl, start, touched, post, noop)
    requires forall i: nat :: i in touched && i < |post| && post[i].Seen? ==> post[i].k == Key(pl, i)
    requires OrderKept(pl, TouchedKeys(pl, touched), order) && KnownOrder(pl, start.rows, order)
    ensures Backed(pl, touched, Controlled(pl, touched, post), order)
  {
    hide Pos, TableOk, Grounded, Recorded, AllAttributed, Controlled;
    forall z ensures z in Controlled(pl, touched, post) ==> z in TouchedKeys(pl, touched)
             ensures z in TouchedKeys(pl, touched) && (z in pl.base.rows || z in start.rows) ==> z in Controlled(pl, touched, post)
    {
      ControlledKeys(pl, start, touched, post0, post, noop, z);
    }
  }

  /** The order of a table of the rollback. */
  ghost predicate Current(u: Undo, order: seq<MKey>) {
    && Distinct(order) && Elements(order) <= AllKeys(u)
    && u.start.rows.Keys * u.base.rows.Keys <= Elements(order)
    && SameOrder(order, u.base.order, u.base.rows.Keys - Moved(u))
  }

  lemma CurrentIsBacked(pl: Plan, start: Table, touched: seq<nat>, post0: seq<Post>, post: seq<Post>, noop: set<nat>, order: seq<MKey>)
    requires CleanStop(pl, start, touched, post0) && |post| == |pl.snaps|
    requires AllAttributed(pl, start, touched, post, noop)
    requires forall i: nat :: i in touched && i < |post| && post[i].Seen? ==> post[i].k == Key(pl, i)
    requires Current(UndoOf(pl, start, touched), order)
    ensures Backed(pl, touched, Controlled(pl, touched, post), order)
  {
    hide Pos, TableOk, Grounded, Recorded, AllAttributed, Controlled;
    var u := UndoOf(pl, start, touched);
    forall z
      ensures z in order ==> z in pl.base.rows || z in start.rows
      ensures Unmanaged(pl, touched, z) ==> z in order
      ensures z !in TouchedKeys(pl, touched) && z in start.rows ==> z in pl.base.rows
      ensures z in Moved(u) ==> z in TouchedKeys(pl, touched)
    {
      assert z in order <==> z in Elements(order);
      UnmanagedStays(pl, start, touched, post0, z);
    }
    forall z ensures z in Controlled(pl, touched, post) ==> z in TouchedKeys(pl, touched)
             ensures z in TouchedKeys(pl, touched) && (z in pl.base.rows || z in start.rows) ==> z in Controlled(pl, touched, post)
    {
      ControlledKeys(pl, start, touched, post0, post, noop, z);
    }
  }

  lemma UnmanagedStays(pl: Plan, start: Table, touched: seq<nat>, post: seq<Post>, z: MKey)
    requires CleanStop(pl, start, touched, post)
    ensures z !in TouchedKeys(pl, touched) ==> (z in start.rows <==> z in pl.base.rows)
    ensures z in Moved(UndoOf(pl, start, touched)) ==> z in TouchedKeys(pl, touched)
  {
    hide Pos, TableOk, Grounded, Recorded;
    if Changed(start.rows, pl.base.rows, z) {
      ChangedIsTouched(pl, start, touched, post, z);
    }
    UndoTodo(pl, start, touched, post);
    if z in Moved(UndoOf(pl, start, touched)) {
      var i := Pos(Keys(pl), z);
      assert Key(pl, i) == z;
    }
  }

  lemma RevivedIsCurrent(u: Undo, m: nat)
    requires UndoOk(u) && m <= |u.todo|
    ensures Current(u, RevivedOrder(u, m))
  {
    hide Pos, Only, View;
    RevivedFacts(u, m);
    var order := RevivedOrder(u, m);
    forall x, y | x in u.base.rows.Keys - Moved(u) && y in u.base.rows.Keys - Moved(u) && x in order && y in order
      ensures Above(order, x, y) <==> Above(u.base.order, x, y)
    {
      UnmovedStarted(u, x);
      UnmovedStarted(u, y);
      BaseKeys(u, x);
      BaseKeys(u, y);
    }
  }

  lemma UndoTableIsCurrent(u: Undo, done: set<MKey>)
    requires UndoOk(u)
    ensures Current(u, UndoTable(u, done).order)
  {
    hide Pos, Only, Reordered;
    var m, keys, order := Reordered(u), UndoRows(u, done).Keys, UndoTable(u, done).order;
    ReorderedFacts(u);
    OnlyFacts(m, keys);
    forall x, y | x in u.base.rows.Keys - Moved(u) && y in u.base.rows.Keys - Moved(u) && x in order && y in order
      ensures Above(order, x, y) <==> Above(u.base.order, x, y)
    {
      OnlyAbove(m, keys, x, y);
      BaseKeys(u, x);
      BaseKeys(u, y);
      assert Above(m, x, y) <==> Above(u.base.order, x, y);
    }
    forall z | z in u.start.rows.Keys * u.base.rows.Keys ensures z in Elements(order) {
      assert z in Elements(m);
    }
  }

  // ---------------------------------------------------------------- what undoing one command meets

  predicate SeenOwn(pl: Plan, touched: seq<nat>, post: seq<Post>, i: nat) {
    i in touched && i < |post| == |pl.snaps| == |pl.ids| && post[i].Seen? ==> post[i].k == Key(pl, i)
  }

  /** Every mutation is attributed; nothing has been written yet. */
  ghost predicate Reconciled(pl: Plan, start: Table, touched: seq<nat>, post0: seq<Post>, post: seq<Post>, noop: set<nat>) {
    && CleanStop(pl, start, touched, post0) && |post| == |pl.snaps|
    && AllAttributed(pl, start, touched, post, noop)
    && forall i: nat :: SeenOwn(pl, touched, post, i)
  }

  lemma UndisturbedNow(pl: Plan, start: Table, touched: seq<nat>, post0: seq<Post>, post: seq<Post>, noop: set<nat>, i: nat, order: seq<MKey>)
    requires Reconciled(pl, start, touched, post0, post, noop) && i in touched && i !in noop
    requires Current(UndoOf(pl, start, touched), order)
    ensures i < |pl.snaps| && !post[i].Unobserved? && Undisturbed(post[i].order, order, Controlled(pl, touched, post))
  {
    hide Pos, TableOk, Grounded, Current, Backed, Undisturbed;
    assert InRange(pl, touched, Pos(touched, i));
    assert Attributed(pl, start, touched, post, noop, i);
    forall l: nat | l in touched && l < |post| && post[l].Seen? ensures post[l].k == Key(pl, l) {
      assert SeenOwn(pl, touched, post, l);
    }
    ObservedIsBacked(pl, start, touched, post0, post, noop, post[i].order);
    CurrentIsBacked(pl, start, touched, post0, post, noop, order);
    BackedAgree(pl, touched, Controlled(pl, touched, post), post[i].order, order);
  }

  /** Every check that undoing one command makes holds, and its write leads to `next`. */
  ghost predicate GoesThrough(t: Table, next: Table, s: Snapshot, post: Post, controlled: set<MKey>) {
    var a := Attribute(t, s, post);
    && a.Bound? && !a.post.Unobserved? && Undisturbed(a.post.order, t.order, controlled)
    && if s.command.operation == Delete then
         && s.existed && a.post.Gone? && Find(t, s.command.name) == Missing
         && next == Step(t, Create(s.mkey, Row(s.command.name, s.restore.(enabled := false))))
         && Find(next, s.command.name) == Found(s.mkey) && s.mkey in next.rows
         && next.rows[s.mkey].rule == s.restore.(enabled := false)
       else
         && a.post.Seen? && Find(t, s.command.name) == Found(a.post.k)
         && a.post.k in t.rows && t.rows[a.post.k].rule == a.post.state
         && if s.existed then
              && next == Step(t, Put(a.post.k, Whole(s.restore)))
              && Find(next, s.command.name) == Found(a.post.k) && a.post.k in next.rows
              && next.rows[a.post.k].rule == s.restore
            else next == Step(t, Remove(a.post.k)) && Find(next, s.command.name) == Missing
  }

  lemma NameIsFree(u: Undo, t: Table, k: MKey)
    requires UndoOk(u) && k in AllKeys(u) && k !in t.rows && NameOf(u, k) != ""
    requires forall l :: NamedAs(u, t.rows, l)
    ensures Find(t, NameOf(u, k)) == Missing
  {
    hide Find;
    forall l | l in t.rows ensures t.rows[l].name != NameOf(u, k) {
      assert NamedAs(u, t.rows, l);
      assert NamesApart(u.base.rows, k, l) && NamesApart(u.start.rows, k, l);
      assert KeepsName(u, k) && KeepsName(u, l) && NewNameIsFree(u, k, l) && NewNameIsFree(u, l, k);
    }
    FindNothing(t, NameOf(u, k));
  }

  lemma RevivedNamed(u: Undo, m: nat, k: MKey)
    requires UndoOk(u) && m <= |u.todo|
    ensures NamedAs(u, RevivedRows(u, m), k)
  {
    assert KeepsName(u, k);
  }

  lemma UndoNamed(u: Undo, done: set<MKey>, k: MKey)
    requires UndoOk(u)
    ensures NamedAs(u, UndoRows(u, done), k)
  {
    RevivedNames(u, k);
  }

  /** Recreating the `m`th deleted policy. */
  lemma RecreationGoesThrough(pl: Plan, start: Table, touched: seq<nat>, post0: seq<Post>, post: seq<Post>, noop: set<nat>, m: nat)
    requires Reconciled(pl, start, touched, post0, post, noop)
    requires m < |DeletedList(pl, touched)| && DeletedList(pl, touched)[m] !in noop
    ensures var u, i := UndoOf(pl, start, touched), DeletedList(pl, touched)[m];
      && m < |u.todo| && i < |pl.snaps|
      && GoesThrough(RevivedTable(u, m), RevivedTable(u, m + 1), pl.snaps[i], post[i], Controlled(pl, touched, post))
  {
    hide Pos, TableOk, Grounded, Find, Undisturbed, Chosen, Controlled, Recorded, Only, View, AllAttributed;
    var u, i := UndoOf(pl, start, touched), DeletedList(pl, touched)[m];
    DeletedItem(pl, start, touched, post0, post, noop, m);
    UndoReady(pl, start, touched, post0, post, noop);
    RevivedIsCurrent(u, m);
    UndisturbedNow(pl, start, touched, post0, post, noop, i, RevivedOrder(u, m));
    RecreatedNames(u, m);
    ReviveStep(u, m);
  }

  lemma RecreatedNames(u: Undo, m: nat)
    requires UndoOk(u) && m < |u.todo| && u.todo[m] !in u.start.rows
    ensures u.todo[m] in u.base.rows && u.todo[m] in RevivedRows(u, m + 1)
    ensures RevivedRows(u, m + 1)[u.todo[m]] == Off(u.base.rows[u.todo[m]])
    ensures var name := u.base.rows[u.todo[m]].name; name != "" ==>
      Find(RevivedTable(u, m), name) == Missing && Find(RevivedTable(u, m + 1), name) == Found(u.todo[m])
  {
    hide Pos, Only, View, TableOk, Find, RevivedOrder, UndoOk;
    var k := u.todo[m];
    PrefixDistinct(u, m);
    TakeMore(u, m);
    forall l ensures NamedAs(u, RevivedRows(u, m), l) { RevivedNamed(u, m, l); }
    RevivedTableOk(u, m + 1);
    if u.base.rows[k].name != "" {
      NameIsFree(u, RevivedTable(u, m), k);
      FindKey(RevivedTable(u, m + 1), k);
    }
  }

  lemma DeletedItem(pl: Plan, start: Table, touched: seq<nat>, post0: seq<Post>, post: seq<Post>, noop: set<nat>, m: nat)
    requires Reconciled(pl, start, touched, post0, post, noop) && m < |DeletedList(pl, touched)|
    ensures var u, i := UndoOf(pl, start, touched), DeletedList(pl, touched)[m];
      && m < |u.todo| && pl.ups <= i < |pl.snaps| && i in touched && Key(pl, i) == u.todo[m]
      && pl.snaps[i].existed && pl.snaps[i].command.operation == Delete && Name(pl, i) != ""
      && u.todo[m] in pl.base.rows && pl.base.rows[u.todo[m]] == Row(Name(pl, i), pl.snaps[i].restore)
      && (i in noop <==> u.todo[m] in start.rows)
      && (i !in noop ==> post[i].Gone?)
  {
    hide Pos, TableOk, Grounded;
    var list := DeletedList(pl, touched);
    var i := list[m];
    ChosenFacts(pl, touched, DELETED);
    assert i in list;
    DeletedAre(pl, i);
    assert touched[Pos(touched, i)] == i;
    assert InRange(pl, touched, Pos(touched, i)) && SnapshotOk(pl, i);
    assert Attributed(pl, start, touched, post, noop, i);
  }

  lemma ExistingItem(pl: Plan, start: Table, touched: seq<nat>, post0: seq<Post>, post: seq<Post>, noop: set<nat>, i: nat)
    requires Reconciled(pl, start, touched, post0, post, noop) && i in touched && i < pl.ups && i !in noop
    ensures i < |pl.snaps| && pl.snaps[i].command.operation == Upsert && Name(pl, i) != ""
    ensures post[i].Seen? && post[i].k == Key(pl, i) && Key(pl, i) in start.rows && start.rows[Key(pl, i)] == Row(Name(pl, i), post[i].state)
    ensures pl.snaps[i].existed ==> Key(pl, i) in pl.base.rows && pl.base.rows[Key(pl, i)] == Row(Name(pl, i), pl.snaps[i].restore)
    ensures !pl.snaps[i].existed ==> Key(pl, i) !in pl.base.rows
    ensures !pl.snaps[i].existed ==> (post[i].state == CreatePayload(pl.snaps[i]) || post[i].state == pl.snaps[i].command.payload)
  {
    hide Pos, TableOk, Grounded, Recorded;
    assert SnapshotOk(pl, i) && ItemState(pl, start.rows, i);
    assert Attributed(pl, start, touched, post, noop, i);
  }

  /** Restoring an updated policy, or removing a created one. */
  lemma UndoingGoesThrough(pl: Plan, start: Table, touched: seq<nat>, post0: seq<Post>, post: seq<Post>, noop: set<nat>, i: nat, done: set<MKey>)
    requires Reconciled(pl, start, touched, post0, post, noop) && i in touched && i < pl.ups && i !in noop
    requires i < |pl.snaps| == |pl.ids| && Key(pl, i) !in done
    ensures var u := UndoOf(pl, start, touched);
      GoesThrough(UndoTable(u, done), UndoTable(u, done + {Key(pl, i)}), pl.snaps[i], post[i], Controlled(pl, touched, post))
  {
    hide Pos, TableOk, Grounded, Find, Chosen, Controlled, Recorded, Reordered, Only, View, Reconciled, CleanStop, PlanOk;
    var u, k := UndoOf(pl, start, touched), Key(pl, i);
    var t, next := UndoTable(u, done), UndoTable(u, done + {k});
    UndoReady(pl, start, touched, post0, post, noop);
    ExistingItem(pl, start, touched, post0, post, noop, i);
    UndoTableIsCurrent(u, done);
    UndisturbedNow(pl, start, touched, post0, post, noop, i, t.order);
    UndoTableOk(u, done);
    assert t.rows[k] == start.rows[k];
    FindKey(t, k);
    if pl.snaps[i].existed {
      UndoPutStep(u, done, k, Whole(pl.snaps[i].restore));
      UndoTableOk(u, done + {k});
      FindKey(next, k);
    } else {
      UndoRemoveStep(u, done, k);
      forall l ensures NamedAs(u, next.rows, l) { UndoNamed(u, done + {k}, l); }
      NameIsFree(u, next, k);
    }
  }

  lemma UndoReady(pl: Plan, start: Table, touched: seq<nat>, post0: seq<Post>, post: seq<Post>, noop: set<nat>)
    requires Reconciled(pl, start, touched, post0, post, noop)
    ensures UndoOk(UndoOf(pl, start, touched))
  {
    UndoOfOk(pl, start, touched, post0);
  }

  /** Enabling a recreated policy. */
  lemma ActivationGoesThrough(pl: Plan, start: Table, touched: seq<nat>, post0: seq<Post>, post: seq<Post>, noop: set<nat>, m: nat, done: set<MKey>)
    requires Reconciled(pl, start, touched, post0, post, noop)
    requires m < |DeletedList(pl, touched)| && DeletedList(pl, touched)[m] !in noop
    requires m < |UndoOf(pl, start, touched).todo| && UndoOf(pl, start, touched).todo[m] !in done
    ensures var u, i := UndoOf(pl, start, touched), DeletedList(pl, touched)[m];
      var k, t := u.todo[m], UndoTable(u, done);
      var next := UndoTable(u, done + {k});
      && i < |pl.snaps| && pl.snaps[i].mkey == k
      && TableOk(t) && Find(t, Name(pl, i)) == Found(k)
      && RestoredTo(pl.base.order, t.order, k) == t.order
      && Step(t, Put(k, StatusOnly(true))) == next
      && Find(next, Name(pl, i)) == Found(k) && k in next.rows && next.rows[k].rule == pl.snaps[i].restore
  {
    hide Pos, TableOk, Grounded, Find, Chosen, Controlled, Recorded, Reordered, Only, View;
    var u := UndoOf(pl, start, touched);
    DeletedItem(pl, start, touched, post0, post, noop, m);
    UndoReady(pl, start, touched, post0, post, noop);
    var k := u.todo[m];
    UndoTableOk(u, done);
    UndoTableOk(u, done + {k});
    AlreadyInPlace(u, done, k);
    UndoPutStep(u, done, k, StatusOnly(true));
    FindKey(UndoTable(u, done), k);
    FindKey(UndoTable(u, done + {k}), k);
  }
}
