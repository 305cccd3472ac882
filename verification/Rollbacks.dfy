/** Rolling a stopped run back, phase by phase. */
module Rollbacks {
  import opened Options
  import opened PolicyTables
  import opened PolicyOrder
  import opened Repositioning
  import opened DeploymentPlans
  import opened DeploymentSteps
  import opened DeploymentRecords
  import opened Devices
  import opened RollbackTables
  import opened RollbackSafety
  import opened RollbackPlans
  import opened RollbackSteps
  import opened RollbackPhases

  // ---------------------------------------------------------------- history

  ghost predicate ShowsUndo(u: Undo, h: seq<Table>, j: nat) {
    j < |h| ==> RollbackTable(u, h[j])
  }

  ghost predicate UndoGrew(u: Undo, h0: seq<Table>, h1: seq<Table>) {
    h0 <= h1 && forall j: nat :: j >= |h0| ==> ShowsUndo(u, h1, j)
  }

  lemma UndoGrewNot(u: Undo, h: seq<Table>)
    ensures UndoGrew(u, h, h)
  {
  }

  lemma UndoGrewOnce(u: Undo, h0: seq<Table>, t: Table)
    requires RollbackTable(u, t)
    ensures UndoGrew(u, h0, h0 + [t])
  {
  }

  lemma UndoGrewTwice(u: Undo, h0: seq<Table>, h1: seq<Table>, h2: seq<Table>)
    requires UndoGrew(u, h0, h1) && UndoGrew(u, h1, h2)
    ensures UndoGrew(u, h0, h2)
  {
    forall j: nat | j >= |h0| ensures ShowsUndo(u, h2, j) {
      assert ShowsUndo(u, h1, j) && ShowsUndo(u, h2, j);
      if j < |h1| { assert h1[j] == h2[j]; }
    }
  }

  lemma ReviveShown(u: Undo, h0: seq<Table>, h1: seq<Table>, h2: seq<Table>, m: nat)
    requires UndoGrew(u, h0, h1) && m <= |u.todo| && (h2 == h1 || h2 == h1 + [RevivedTable(u, m)])
    ensures UndoGrew(u, h0, h2)
  {
    hide RevivedTable, UndoGrew;
    if h2 != h1 {
      UndoGrewOnce(u, h1, RevivedTable(u, m));
      UndoGrewTwice(u, h0, h1, h2);
    }
  }

  lemma RevivedWhole(u: Undo)
    requires UndoOk(u)
    ensures RevivedTable(u, |u.todo|) == Table(Laid(u), Revived(u))
  {
    ReviveBounds(u);
  }

  lemma NoKindNoKeys(pl: Plan, touched: seq<nat>)
    requires |pl.snaps| == |pl.ids|
    ensures KeysWith(pl, touched, {}) == {}
  {
  }

  lemma MoreKindsMoreKeys(pl: Plan, touched: seq<nat>, kinds: set<Kind>, more: set<Kind>)
    requires |pl.snaps| == |pl.ids| && kinds <= more
    ensures KeysWith(pl, touched, kinds) <= KeysWith(pl, touched, more)
  {
  }

  /** Some table since the start of the rollback is `t`. */
  predicate Shown(h0: seq<Table>, h1: seq<Table>, t: Table) {
    exists j :: |h0| - 1 <= j < |h1| && j >= 0 && h1[j] == t
  }

  lemma ShownLater(h0: seq<Table>, h1: seq<Table>, h2: seq<Table>, t: Table)
    requires Shown(h0, h1, t) && h1 <= h2
    ensures Shown(h0, h2, t)
  {
    var j :| |h0| - 1 <= j < |h1| && j >= 0 && h1[j] == t;
    assert h2[j] == t;
  }

  /** The table after the first repositioning. */
  function FirstMove(u: Undo): Table
    requires u.todo != []
  {
    Table(RestoredTo(u.base.order, Laid(u), u.todo[0]), Revived(u))
  }

  // ---------------------------------------------------------------- moving one policy

  /** Moves a policy next to a neighbour saved in its snapshot and looks where it is. */
  method RestorePosition(device: Device, k: MKey, before: Option<MKey>, after: Option<MKey>) returns (ok: bool)
    requires EachOnce(device.t) && device.history != [] && device.history[|device.history| - 1] == device.t
    modifies device
    ensures EachOnce(device.t) && (old(device.link).Stable? ==> device.link.Stable?) && (old(device.link).Dead? ==> device.link.Dead?)
    ensures ok ==> device.t == Table(Repositioned(old(device.t.order), k, before, after), old(device.t.rows))
    ensures k in old(device.t.order) && before != Some(k) && after != Some(k) && !old(device.link).Dead? ==> (ok <==> !device.link.Dead?)
    ensures device.t == old(device.t) || device.t == Table(Repositioned(old(device.t.order), k, before, after), old(device.t.rows))
    ensures device.history == old(device.history) + [device.t] || (device.history == old(device.history) && device.t == old(device.t))
    ensures device.history != [] && device.history[|device.history| - 1] == device.t
  {
    hide Pos, MovedBefore, MovedAfter;
    ok := !device.link.Dead?;
    ghost var s := device.t.order;
    if before.Some? && before.value in device.t.order {
      if k in s && k != before.value {
        MovedBeforeLinks(s, k, before.value);
        LinkedIsBelow(MovedBefore(s, k, before.value), k, before.value);
      }
      ok := device.Send(MoveBefore(k, before.value));
      ok := ok && Below(device.t.order, k) == before;
    } else if after.Some? && after.value in device.t.order {
      if k in s && k != after.value {
        MovedAfterLinks(s, k, after.value);
        LinkedIsAbove(MovedAfter(s, k, after.value), after.value, k);
      }
      ok := device.Send(MoveAfter(k, after.value));
      ok := ok && AboveOf(device.t.order, k) == after;
    }
  }

  lemma LinkedIsAbove(s: seq<MKey>, x: MKey, y: MKey)
    requires Linked(s, x, y)
    ensures AboveOf(s, y) == Some(x)
  {
  }

  lemma OwnNeighbours(base: seq<MKey>, k: MKey)
    requires Distinct(base) && k in base
    ensures Below(base, k) != Some(k) && AboveOf(base, k) != Some(k)
  {
    var j := Pos(base, k);
    assert Apart(base, j, j + 1) && (j > 0 ==> Apart(base, j - 1, j));
  }

  function Failed(ok: bool): nat {
    if ok then 0 else 1
  }

  function Counted(i: nat, ok: bool): set<nat> {
    if ok then {i} else {}
  }

  class RollbackRun {
    const pl: Plan
    const device: Device
    /** The mutated commands, latest last. */
    const touched: seq<nat>
    var post: seq<Post>
    /** Commands that turned out to have had no effect. */
    var noop: set<nat>
    /** Policies recreated disabled, and commands undone so far. */
    var recreated: set<nat>
    var rolledBack: set<nat>
    var restored: seq<nat>
    var failures: nat
    ghost const start: Table
    ghost const post0: seq<Post>
    /** Nobody else was at work when the run stopped. */
    ghost const clean: bool

    ghost function U(): Undo
      requires |pl.snaps| == |pl.ids|
    {
      UndoOf(pl, start, touched)
    }

    predicate RestoredOk(j: nat)
      reads this`restored
    {
      j < |restored| ==> restored[j] < |pl.snaps| && pl.snaps[restored[j]].existed
    }

    /** Whatever the device may show. */
    ghost predicate Sane()
      reads this, device
    {
      && |post| == |pl.snaps| == |pl.ids| && EachOnce(device.t)
      && device.history != [] && device.history[|device.history| - 1] == device.t
      && forall j: nat :: RestoredOk(j)
    }

    /** Every outcome is attributed and the connection holds. */
    ghost predicate Bound()
      reads this, device
    {
      && Sane() && Reconciled(pl, start, touched, post0, post, noop) && |post| == |pl.snaps| == |pl.ids|
      && !device.link.Dead? && failures == 0
    }

    constructor (pl: Plan, device: Device, touched: seq<nat>, post: seq<Post>)
      ensures this.pl == pl && this.device == device && this.touched == touched && this.post == post
      ensures start == device.t && post0 == post && noop == {} && restored == [] && failures == 0
      ensures recreated == {} && rolledBack == {} && clean == CleanStop(pl, device.t, touched, post)
    {
      this.pl, this.device, this.touched, this.post := pl, device, touched, post;
      noop, recreated, rolledBack, restored, failures := {}, {}, {}, [], 0;
      start, post0, clean := device.t, post, CleanStop(pl, device.t, touched, post);
    }

    /** Binds every outcome that is in doubt; writes nothing. */
    method Reconcile()
      requires |post| == |pl.snaps| == |pl.ids| && Distinct(touched) && noop == {} && failures == 0 && post == post0
      requires EachOnce(device.t) && forall j :: 0 <= j < |touched| ==> touched[j] < |pl.snaps|
      modifies this`post, this`noop, this`failures
      ensures failures == 0 <==> AllLeft(pl, device.t, touched, post0)
      ensures |post| == |pl.snaps|
      ensures failures == 0 ==> forall j :: 0 <= j < |touched| ==>
        var i := touched[j];
        if Untouched(device.t, pl.snaps[i], post0[i]) then i in noop else i !in noop && ShownBy(device.t, pl.snaps[i], post0[i], post[i])
      ensures failures == 0 ==> forall j :: 0 <= j < |touched| ==> IsAttributed(touched[j])
    {
      hide Attribute, Pos, EachOnce, LeftByRun, Untouched, ShownBy;
      var j := |touched|;
      while j > 0
        invariant 0 <= j <= |touched| && |post| == |pl.snaps|
        invariant failures == 0 <==> forall l :: j <= l < |touched| ==> LeftByRun(device.t, pl.snaps[touched[l]], post0[touched[l]])
        invariant forall l :: 0 <= l < j ==> post[touched[l]] == post0[touched[l]] && touched[l] !in noop
        invariant failures == 0 ==> forall l :: j <= l < |touched| ==> IsAttributed(touched[l])
      {
        j := j - 1;
        var i := touched[j];
        forall l | 0 <= l < |touched| && l != j ensures touched[l] != i {
          assert Apart(touched, l, j) && Apart(touched, j, l);
        }
        var a := Attribute(device.t, pl.snaps[i], post[i]);
        AttributeIs(device.t, pl.snaps[i], post[i]);
        if a.Unattributable? {
          failures := failures + 1;
        } else if a.NoEffect? {
          noop := noop + {i};
        } else {
          post := post[i := a.post];
        }
      }
      if failures == 0 {
        forall l | 0 <= l < |touched|
          ensures var i := touched[l];
            if Untouched(device.t, pl.snaps[i], post0[i]) then i in noop else i !in noop && ShownBy(device.t, pl.snaps[i], post0[i], post[i])
        {
          assert IsAttributed(touched[l]);
          AttributeIs(device.t, pl.snaps[touched[l]], post0[touched[l]]);
        }
      }
    }

    ghost predicate IsAttributed(i: nat)
      reads this, device
    {
      i < |pl.snaps| && i < |post| && i < |post0| ==>
        var a := Attribute(device.t, pl.snaps[i], post0[i]);
        !a.Unattributable? && (i in noop <==> a.NoEffect?) && post[i] == if a.Bound? then a.post else post0[i]
    }

    /** The touched commands of some kinds, latest first. */
    method Select(kinds: set<Kind>) returns (list: seq<nat>)
      ensures list == Chosen(pl, touched, kinds) && forall i :: i in list ==> i < |pl.snaps|
    {
      list := [];
      var j := |touched|;
      assert touched[..j] == touched;
      while j > 0
        invariant 0 <= j <= |touched| && forall i :: i in list ==> i < |pl.snaps|
        invariant list + Chosen(pl, touched[..j], kinds) == Chosen(pl, touched, kinds)
      {
        j := j - 1;
        assert touched[..j + 1][..j] == touched[..j];
        ghost var rest := Chosen(pl, touched[..j], kinds);
        assert (list + [touched[j]]) + rest == list + ([touched[j]] + rest);
        assert [] + rest == rest;
        if touched[j] < |pl.snaps| && KindOf(pl.snaps[touched[j]]) in kinds { list := list + [touched[j]]; }
      }
      assert touched[..0] == [];
    }

    /** Undoes one command: checks that nobody else was there, writes, reads back. */
    method RollBack(i: nat, ghost next: Table) returns (ok: bool)
      requires Sane() && i < |pl.snaps|
      requires clean ==> Bound() && i in touched && (i in noop ==> next == device.t)
      requires clean && i !in noop ==> GoesThrough(device.t, next, pl.snaps[i], post[i], Controlled(pl, touched, post))
      modifies this`noop, this`recreated, this`restored, device
      ensures Sane() && (old(device.link).Stable? ==> device.link.Stable?) && (old(device.link).Dead? ==> device.link.Dead?)
      ensures device.history == old(device.history) || device.history == old(device.history) + [device.t]
      ensures device.history != old(device.history) ==>
        i !in old(noop) && MayUndo(old(device.t), pl.snaps[i], old(post[i]), Controlled(pl, touched, old(post)))
      ensures ok ==> i in noop || IsUndone(device.t, pl.snaps[i])
      ensures i in noop && i !in old(noop) ==> Untouched(device.t, pl.snaps[i], old(post[i])) && device.history == old(device.history)
      ensures clean ==> noop == old(noop) && (ok <==> !device.link.Dead?) && (ok ==> Bound() && device.t == next)
      ensures clean && ok ==> device.history == if i in noop then old(device.history) else old(device.history) + [next]
      ensures clean && !ok ==> device.history == old(device.history) + [device.t] && (device.t == old(device.t) || device.t == next)
      ensures clean ==> recreated == old(recreated) + if i !in noop && pl.snaps[i].command.operation == Delete then {i} else {}
    {
      hide Attribute, Find, Step, Undisturbed, Controlled, Reconciled, Pos, EachOnce, MayUndo, IsUndone, Untouched, View, GoesThrough;
      var s := pl.snaps[i];
      ok := true;
      if i !in noop {
        if clean { WhatGoesThrough(device.t, next, s, post[i], Controlled(pl, touched, post)); }
        var a := Attribute(device.t, s, post[i]);
        var found := Find(device.t, s.command.name);
        CheckedUndo(device.t, s, post[i], Controlled(pl, touched, post));
        if a.NoEffect? {
          noop := noop + {i};
        } else if MayWrite(device.t, s, a, found, Controlled(pl, touched, post)) {
          ok := WriteBack(s, a, i);
          if ok && s.existed {
            forall j: nat ensures j < |restored + [i]| ==> (restored + [i])[j] < |pl.snaps| && pl.snaps[(restored + [i])[j]].existed {
              assert RestoredOk(j);
            }
            restored := restored + [i];
          }
        } else {
          ok := false;
        }
      }
    }

    /** The write that undoes a command, and the read that follows it. */
    method WriteBack(s: Snapshot, a: Attribution, i: nat) returns (ok: bool)
      requires EachOnce(device.t) && device.history != [] && device.history[|device.history| - 1] == device.t
      requires a.Bound? && !a.post.Unobserved? && (s.command.operation == Delete ==> s.existed) && (s.command.operation == Upsert ==> a.post.Seen?)
      modifies this`recreated, device
      ensures EachOnce(device.t) && device.history == old(device.history) + [device.t]
      ensures (old(device.link).Stable? ==> device.link.Stable?) && (old(device.link).Dead? ==> device.link.Dead?)
      ensures ok ==> device.t == Step(old(device.t), UndoWrite(s, a)) && IsUndone(device.t, s)
      ensures device.t == old(device.t) || device.t == Step(old(device.t), UndoWrite(s, a))
      ensures ReadsBack(Step(old(device.t), UndoWrite(s, a)), s, a) ==> (ok <==> !device.link.Dead?)
      ensures recreated == old(recreated) + if s.command.operation == Delete then {i} else {}
    {
      hide Find, Step, EachOnce, IsUndone;
      ok := device.Send(UndoWrite(s, a));
      if s.command.operation == Delete { recreated := recreated + {i}; }
      ReadBackIsUndone(device.t, s, a);
      ok := ok && ReadsBack(device.t, s, a);
    }

    /** Recreates the deleted policies, disabled, at the end of the table. */
    method RecreateDeleted(list: seq<nat>)
      requires Sane() && forall i :: i in list ==> i < |pl.snaps|
      requires clean ==> Bound() && device.t == start && list == DeletedList(pl, touched) && recreated == {} && rolledBack == {}
      modifies this`noop, this`recreated, this`restored, this`rolledBack, this`failures, device
      ensures Sane() && old(device.history) <= device.history && (old(device.link).Stable? ==> device.link.Stable?)
      ensures clean ==> UndoGrew(U(), old(device.history), device.history)
      ensures clean && !device.link.Dead? ==> Bound() && device.t == Table(Laid(U()), Revived(U()))
      ensures clean && !device.link.Dead? ==> rolledBack == Elements(list) && forall i :: i in recreated <==> i in list && i !in noop
    {
      hide Reconciled, RevivedTable, Revived, RevivedRows, RevivedOrder, GoesThrough, Chosen, UndoGrew, RollbackTable, UndoOk, Pos, EachOnce, MayUndo, IsUndone, Untouched, Elements;
      ghost var u := U();
      ghost var h := device.history;
      if clean {
        UndoReady(pl, start, touched, post0, post, noop);
        ReviveBounds(u);
        UndoGrewNot(u, h);
        NoElements();
      }
      var m := 0;
      assert list[..m] == [];
      while m < |list|
        invariant 0 <= m <= |list| && Sane() && h <= device.history && (old(device.link).Stable? ==> device.link.Stable?)
        invariant clean ==> Bound() && |list| == |u.todo| && list == DeletedList(pl, touched)
        invariant clean ==> device.t == RevivedTable(u, m) && UndoGrew(u, h, device.history)
        invariant clean ==> rolledBack == Elements(list[..m]) && forall i :: i in recreated <==> i in list[..m] && i !in noop
      {
        var i := list[m];
        assert i in list;
        if clean {
          DeletedItem(pl, start, touched, post0, post, noop, m);
          if i !in noop {
            RecreationGoesThrough(pl, start, touched, post0, post, noop, m);
          } else {
            ReviveNothing(u, m);
          }
        }
        ghost var h' := device.history;
        var ok := RollBack(i, if clean then RevivedTable(u, m + 1) else start);
        assert list[..m + 1] == list[..m] + [i];
        ElementsMore(list[..m], i);
        if clean { ReviveShown(u, h, h', device.history, if device.t == RevivedTable(u, m + 1) then m + 1 else m); }
        rolledBack := rolledBack + Counted(i, ok);
        failures := failures + Failed(ok);
        if device.link.Dead? {
          failures := failures + 1;
          return;
        }
        m := m + 1;
      }
      assert list[..m] == list;
      if clean { RevivedWhole(u); }
    }

    /** Moves one deleted policy next to its saved neighbour. */
    method Reposition(list: seq<nat>, j: nat, last: bool, ghost s: seq<MKey>)
      requires Sane() && j < |list| && list[j] < |pl.snaps|
      requires clean ==> Bound() && list == DeletedList(pl, touched) && j < |U().todo| && rolledBack == Elements(list)
      requires clean ==> device.t == Table(s, Revived(U())) && Sinking(U(), s)
      modifies this`rolledBack, this`failures, device
      ensures Sane() && old(device.history) <= device.history && (old(device.link).Stable? ==> device.link.Stable?)
      ensures clean ==> UndoGrew(U(), old(device.history), device.history)
      ensures clean ==> var s' := RestoredTo(U().base.order, s, U().todo[j]);
        !device.link.Dead? ==> Bound() && device.t == Table(s', Revived(U())) && Sinking(U(), s') && rolledBack == Elements(list)
    {
      hide Reconciled, Revived, Laid, Chosen, UndoGrew, UndoOk, Pos, Sinking, Find, RestoredTo, Repositioned, RestoredOk, RollbackTable, TableOk, EachOnce;
      ghost var u, h := U(), device.history;
      var i := list[j];
      if clean {
        UndoGrewNot(u, h);
        UndoReady(pl, start, touched, post0, post, noop);
        DeletedItem(pl, start, touched, post0, post, noop, j);
        SavedPlace(pl, start, touched, post0, post, noop, j, s);
        SinkStep(u, s, u.todo[j]);
        assert i in Elements(list) && i in list;
      }
      if i in rolledBack {
        var found := Find(device.t, pl.snaps[i].command.name);
        var ok := found.Found?;
        if ok { ok := RestorePosition(device, found.k, pl.snaps[i].beforeMKey, pl.snaps[i].afterMKey); }
        if clean {
          ghost var s' := RestoredTo(u.base.order, s, u.todo[j]);
          PassMove(u, h, h, device.history, device.t, if device.t == Table(s', Revived(u)) then s' else s);
        }
        var settled := ok || (!last && !device.link.Dead?);
        failures := failures + Failed(settled);
        rolledBack := rolledBack - {i} + Counted(i, settled);
      }
    }

    /** Moves the deleted policies back between their saved neighbours, as often
        as there are such policies. */
    method RepositionDeleted(list: seq<nat>)
      requires Sane() && forall i :: i in list ==> i < |pl.snaps|
      requires clean ==> Bound() && device.t == Table(Laid(U()), Revived(U())) && list == DeletedList(pl, touched) && rolledBack == Elements(list)
      modifies this`rolledBack, this`failures, device
      ensures Sane() && old(device.history) <= device.history && (old(device.link).Stable? ==> device.link.Stable?)
      ensures clean ==> UndoGrew(U(), old(device.history), device.history)
      ensures clean && !device.link.Dead? ==> Bound() && device.t == Table(Reordered(U()), Revived(U())) && rolledBack == Elements(list)
      ensures clean && !device.link.Dead? && U().todo != [] ==> Shown(old(device.history), device.history, FirstMove(U()))
    {
      hide Reconciled, Revived, Laid, Chosen, UndoGrew, UndoOk, Pos, Sinking, Passes, Pass, Shown, Find, RestoredTo, Repositioned, RestoredOk, RollbackTable, TableOk, EachOnce;
      ghost var u, s := U(), Laid(U());
      ghost var h := device.history;
      if clean {
        UndoReady(pl, start, touched, post0, post, noop);
        LaidIsSinking(u);
        UndoGrewNot(u, h);
      }
      var pass := 0;
      while pass < |list|
        invariant 0 <= pass <= |list| && Sane() && h <= device.history && (old(device.link).Stable? ==> device.link.Stable?)
        invariant clean ==> Bound() && |list| == |u.todo| && rolledBack == Elements(list)
        invariant clean ==> device.t == Table(s, Revived(u)) && Sinking(u, s) && UndoGrew(u, h, device.history)
        invariant clean ==> Passes(u.base.order, s, u.todo, |list| - pass) == Reordered(u)
        invariant clean && pass == 0 ==> s == Laid(u)
        invariant clean && pass > 0 ==> Shown(h, device.history, FirstMove(u))
      {
        if clean {
          assert u.todo[0..] == u.todo;
          PassesUnfold(u.base.order, s, u.todo, |list| - pass);
        }
        var j := 0;
        while j < |list|
          invariant 0 <= j <= |list| && Sane() && h <= device.history && (old(device.link).Stable? ==> device.link.Stable?)
          invariant clean ==> Bound() && |list| == |u.todo| && rolledBack == Elements(list)
          invariant clean ==> device.t == Table(s, Revived(u)) && Sinking(u, s) && UndoGrew(u, h, device.history)
          invariant clean ==> Passes(u.base.order, Pass(u.base.order, s, u.todo[j..]), u.todo, |list| - pass - 1) == Reordered(u)
          invariant clean && pass == 0 && j == 0 ==> s == Laid(u)
          invariant clean && (pass > 0 || j > 0) ==> Shown(h, device.history, FirstMove(u))
        {
          ghost var h' := device.history;
          assert list[j] in list;
          Reposition(list, j, pass == |list| - 1, s);
          if clean { UndoGrewTwice(u, h, h', device.history); }
          if device.link.Dead? {
            failures := failures + 1;
            return;
          }
          if clean {
            assert u.todo[j..][1..] == u.todo[j + 1..];
            PassUnfold(u.base.order, s, u.todo[j..]);
            s := RestoredTo(u.base.order, s, u.todo[j]);
            if pass == 0 && j == 0 { FirstIsShown(u, h, device.history); } else { ShownLater(h, h', device.history, FirstMove(u)); }
          }
          j := j + 1;
        }
        if clean { PassEnd(u.base.order, s, u.todo[j..]); }
        pass := pass + 1;
      }
      if clean { PassesEnd(u.base.order, s, u.todo); }
    }

    /** Undoes every touched command of one kind, latest first. */
    method UndoEach(kind: Kind, ghost kinds: set<Kind>)
      requires Sane()
      requires clean ==> Bound() && kind !in DELETED && kind !in kinds && Reached(kinds, kind)
      requires clean ==> device.t == UndoTable(U(), KeysWith(pl, touched, kinds))
      modifies this`noop, this`recreated, this`restored, this`rolledBack, this`failures, device
      ensures Sane() && old(device.history) <= device.history && (old(device.link).Stable? ==> device.link.Stable?)
      ensures clean ==> UndoGrew(U(), old(device.history), device.history)
      ensures clean && !device.link.Dead? ==> Bound() && device.t == UndoTable(U(), KeysWith(pl, touched, kinds + {kind}))
      ensures clean && !device.link.Dead? ==> old(rolledBack) <= rolledBack && recreated == old(recreated) && noop == old(noop)
    {
      hide Reconciled, UndoTable, GoesThrough, Chosen, UndoGrew, UndoOk, Pos, KeysWith, KindOf, DoneBy, UndoOf, UndoInPhase, Controlled, RestoredOk, Reached, PlanOk, Elements, EachOnce, MayUndo, IsUndone, Untouched;
      ghost var u, h := U(), device.history;
      var list := Select({kind});
      if clean {
        ReconciledPlan(pl, start, touched, post0, post, noop);
        UndoGrewNot(u, h);
        DoneBounds(pl, touched, kinds, kind, list);
      }
      var j := 0;
      while j < |list|
        invariant 0 <= j <= |list| && Sane() && h <= device.history && (old(device.link).Stable? ==> device.link.Stable?)
        invariant clean ==> Bound() && device.t == UndoTable(u, DoneBy(pl, touched, kinds, list, j))
        invariant clean ==> UndoGrew(u, h, device.history) && old(rolledBack) <= rolledBack && recreated == old(recreated) && noop == old(noop)
      {
        var i := list[j];
        assert i in list;
        ghost var h' := device.history;
        if clean { KindTurn(pl, start, touched, post0, post, noop, kinds, kind, list, j); }
        ghost var done, done' := DoneBy(pl, touched, kinds, list, j), DoneBy(pl, touched, kinds, list, j + 1);
        var ok := RollBack(i, UndoTable(u, done'));
        if clean { PhaseShown(u, h, h', device.history, device.t, if device.t == UndoTable(u, done') then done' else done); }
        rolledBack := rolledBack + Counted(i, ok);
        failures := failures + Failed(ok);
        if device.link.Dead? {
          failures := failures + 1;
          return;
        }
        j := j + 1;
      }
    }

    /** Enables the recreated policies of one kind once they are in position. */
    method ActivateEach(kind: Kind, ghost kinds: set<Kind>)
      requires Sane()
      requires clean ==> Bound() && kind in DELETED && kind !in kinds && Reached(kinds, kind)
      requires clean ==> device.t == UndoTable(U(), KeysWith(pl, touched, kinds))
      requires clean ==> forall i :: i in DeletedList(pl, touched) ==> i in rolledBack && (i in recreated <==> i !in noop)
      modifies this`failures, device
      ensures Sane() && old(device.history) <= device.history && (old(device.link).Stable? ==> device.link.Stable?)
      ensures clean ==> UndoGrew(U(), old(device.history), device.history)
      ensures clean && !device.link.Dead? ==> Bound() && device.t == UndoTable(U(), KeysWith(pl, touched, kinds + {kind}))
    {
      hide Reconciled, UndoTable, GoesThrough, Chosen, UndoGrew, UndoOk, Pos, KeysWith, KindOf, Find, RestoredTo, Repositioned, DoneBy, UndoOf, UndoInPhase, RestoredOk, Reached, PlanOk, Elements, Step, TableOk, EachOnce;
      ghost var u, h := U(), device.history;
      var list := Select({kind});
      if clean {
        ReconciledPlan(pl, start, touched, post0, post, noop);
        UndoGrewNot(u, h);
        DoneBounds(pl, touched, kinds, kind, list);
      }
      var j := 0;
      while j < |list|
        invariant 0 <= j <= |list| && Sane() && h <= device.history && (old(device.link).Stable? ==> device.link.Stable?)
        invariant clean ==> Bound() && device.t == UndoTable(u, DoneBy(pl, touched, kinds, list, j)) && UndoGrew(u, h, device.history)
      {
        var i := list[j];
        assert i in list;
        ghost var h' := device.history;
        ghost var done, done' := DoneBy(pl, touched, kinds, list, j), DoneBy(pl, touched, kinds, list, j + 1);
        ghost var k: MKey := 0;
        if clean {
          ghost var m := ActivationTurn(pl, start, touched, post0, post, noop, kinds, kind, list, j);
          k := u.todo[m];
        }
        if i in rolledBack && i in recreated && i !in noop && pl.snaps[i].restore.enabled {
          var ok := Activate(i, k, UndoTable(u, done), UndoTable(u, done'));
          if clean { TwoPhasesShown(u, h, h', device.history, done, done'); }
          failures := failures + Failed(ok);
          if device.link.Dead? {
            failures := failures + 1;
            return;
          }
        }
        j := j + 1;
      }
    }

    /** Moves every restored policy to its saved place once more and checks its neighbours. */
    method RestoreOrder()
      requires Sane() && (clean ==> Bound() && device.t == pl.base && RollbackTable(U(), pl.base))
      modifies this`failures, device
      ensures Sane() && old(device.history) <= device.history && (old(device.link).Stable? ==> device.link.Stable?)
      ensures clean ==> UndoGrew(U(), old(device.history), device.history)
      ensures clean && !device.link.Dead? ==> Bound() && device.t == pl.base
      ensures failures >= old(failures)
      ensures failures == 0 ==> AllPlaced(pl, device.t, restored, |restored|)
    {
      hide Reconciled, UndoGrew, RollbackTable, Pos, Find, Repositioned, UndoOf, Below, AboveOf, EachOnce, InOldPlace;
      ghost var u, h := U(), device.history;
      if clean {
        ReconciledPlan(pl, start, touched, post0, post, noop);
        UndoGrewNot(u, h);
      }
      var n := |restored|;
      for pass := 0 to n
        invariant Sane() && h <= device.history && n == |restored| && failures >= old(failures) && (old(device.link).Stable? ==> device.link.Stable?)
        invariant clean ==> Bound() && device.t == pl.base && UndoGrew(u, h, device.history)
      {
        for j := 0 to n
          invariant Sane() && h <= device.history && n == |restored| && failures >= old(failures) && (old(device.link).Stable? ==> device.link.Stable?)
          invariant clean ==> Bound() && device.t == pl.base && UndoGrew(u, h, device.history)
        {
          assert RestoredOk(j);
          var s := pl.snaps[restored[j]];
          if clean { RestoredIsHome(pl, restored[j]); }
          ghost var h' := device.history;
          var found := Find(device.t, s.command.name);
          var ok := found.Found?;
          if ok { ok := RestorePosition(device, found.k, s.beforeMKey, s.afterMKey); }
          if clean { HomeShown(u, h, h', device.history, pl.base); }
          failures := failures + Failed(ok || (pass < n - 1 && !device.link.Dead?));
          if device.link.Dead? {
            failures := failures + 1;
            return;
          }
        }
      }
      for j := 0 to n
        invariant Sane() && h <= device.history && n == |restored| && failures >= old(failures) && (old(device.link).Stable? ==> device.link.Stable?)
        invariant clean ==> Bound() && device.t == pl.base && UndoGrew(u, h, device.history)
        invariant failures == 0 ==> AllPlaced(pl, device.t, restored, j)
      {
        assert RestoredOk(j);
        var s := pl.snaps[restored[j]];
        if clean { RestoredIsHome(pl, restored[j]); }
        var found := Find(device.t, s.command.name);
        var ok := && found.Found?
                  && (s.beforeMKey.Some? ==> Below(device.t.order, found.k) == s.beforeMKey)
                  && (s.afterMKey.Some? ==> AboveOf(device.t.order, found.k) == s.afterMKey);
        if ok { CheckedPlace(device.t, s, found.k); }
        failures := failures + Failed(ok);
      }
    }

    /** Deleted policies are recreated disabled and put back in their places. */
    method ReviveDeleted()
      requires Sane() && (clean ==> Bound() && device.t == start && recreated == {} && rolledBack == {})
      modifies this`noop, this`recreated, this`restored, this`rolledBack, this`failures, device
      ensures Sane() && old(device.history) <= device.history && (old(device.link).Stable? ==> device.link.Stable?)
      ensures clean ==> UndoGrew(U(), old(device.history), device.history)
      ensures clean && !device.link.Dead? ==> Bound() && device.t == UndoTable(U(), KeysWith(pl, touched, {}))
      ensures clean && !device.link.Dead? && U().todo != [] ==> Shown(old(device.history), device.history, FirstMove(U()))
      ensures clean && !device.link.Dead? ==> forall i :: i in DeletedList(pl, touched) ==> i in rolledBack && (i in recreated <==> i !in noop)
    {
      hide Reconciled, UndoGrew, RollbackTable, Pos, UndoOf, UndoTable, Shown, Chosen, KeysWith, Reordered, Revived, Laid, EachOnce;
      ghost var u, h := U(), device.history;
      if clean { ReconciledPlan(pl, start, touched, post0, post, noop); }
      var deleted := Select(DELETED);
      RecreateDeleted(deleted);
      ghost var h1 := device.history;
      if device.link.Dead? { return; }
      RepositionDeleted(deleted);
      if clean { UndoGrewTwice(u, h, h1, device.history); }
      if device.link.Dead? { return; }
      if clean {
        if u.todo != [] { ShownSooner(u, h, h1, device.history, FirstMove(u)); }
        UndoStarts(u);
        NoKindNoKeys(pl, touched);
      }
    }

    /** Baseline DENYs come back before anything is opened; new ACCEPTs go. */
    method Restrict() returns (ghost kinds: set<Kind>)
      requires Sane() && (clean ==> Bound() && device.t == UndoTable(U(), KeysWith(pl, touched, {})))
      requires clean ==> forall i :: i in DeletedList(pl, touched) ==> i in rolledBack && (i in recreated <==> i !in noop)
      modifies this`noop, this`recreated, this`restored, this`rolledBack, this`failures, device
      ensures Sane() && old(device.history) <= device.history && (old(device.link).Stable? ==> device.link.Stable?)
      ensures clean ==> UndoGrew(U(), old(device.history), device.history)
      ensures clean && !device.link.Dead? ==> Bound() && device.t == UndoTable(U(), KeysWith(pl, touched, kinds))
      ensures clean && !device.link.Dead? ==> forall i :: i in DeletedList(pl, touched) ==> i in rolledBack && (i in recreated <==> i !in noop)
      ensures !device.link.Dead? ==> kinds == {ExistingDeny, DeletedDeny, NewAccept}
    {
      hide Reconciled, UndoGrew, UndoOf, UndoTable, Chosen, KeysWith, EachOnce;
      kinds := {};
      ghost var u, h := U(), device.history;
      ghost var h1 := h;
      if clean { UndoGrewNot(u, h); }
      UndoEach(ExistingDeny, kinds);
      kinds := kinds + {ExistingDeny};
      if clean { UndoGrewTwice(u, h, h1, device.history); }
      h1 := device.history;
      if device.link.Dead? { return; }
      ActivateEach(DeletedDeny, kinds);
      kinds := kinds + {DeletedDeny};
      if clean { UndoGrewTwice(u, h, h1, device.history); }
      h1 := device.history;
      if device.link.Dead? { return; }
      UndoEach(NewAccept, kinds);
      kinds := kinds + {NewAccept};
      if clean { UndoGrewTwice(u, h, h1, device.history); }
    }

    /** Baseline ACCEPTs come back; new DENYs go last. */
    method Permit(ghost kinds0: set<Kind>)
      requires Sane() && kinds0 == {ExistingDeny, DeletedDeny, NewAccept}
      requires clean ==> Bound() && device.t == UndoTable(U(), KeysWith(pl, touched, kinds0))
      requires clean ==> forall i :: i in DeletedList(pl, touched) ==> i in rolledBack && (i in recreated <==> i !in noop)
      modifies this`noop, this`recreated, this`restored, this`rolledBack, this`failures, device
      ensures Sane() && old(device.history) <= device.history && (old(device.link).Stable? ==> device.link.Stable?)
      ensures clean ==> UndoGrew(U(), old(device.history), device.history)
      ensures clean && !device.link.Dead? ==> Bound() && device.t == UndoTable(U(), KeysWith(pl, touched, EVERY_KIND))
    {
      hide Reconciled, UndoGrew, UndoOf, UndoTable, Chosen, KeysWith, EachOnce;
      ghost var kinds := kinds0;
      ghost var u, h := U(), device.history;
      ghost var h1 := h;
      if clean { UndoGrewNot(u, h); }
      UndoEach(ExistingAccept, kinds);
      kinds := kinds + {ExistingAccept};
      if clean { UndoGrewTwice(u, h, h1, device.history); }
      h1 := device.history;
      if device.link.Dead? { return; }
      ActivateEach(DeletedAccept, kinds);
      kinds := kinds + {DeletedAccept};
      if clean { UndoGrewTwice(u, h, h1, device.history); }
      h1 := device.history;
      if device.link.Dead? { return; }
      UndoEach(NewDeny, kinds);
      kinds := kinds + {NewDeny};
      if clean { UndoGrewTwice(u, h, h1, device.history); }
      assert kinds == EVERY_KIND;
    }

    /** The phases of the rollback once every outcome is attributed. */
    method Compensate()
      requires Sane() && (clean ==> Bound() && device.t == start && recreated == {} && rolledBack == {})
      modifies this`noop, this`recreated, this`restored, this`rolledBack, this`failures, device
      ensures Sane() && old(device.history) <= device.history && (old(device.link).Stable? ==> device.link.Stable?)
      ensures clean ==> UndoGrew(U(), old(device.history), device.history)
      ensures clean && !device.link.Dead? ==> Bound() && device.t == pl.base
      ensures clean && !device.link.Dead? && U().todo != [] ==> Shown(old(device.history), device.history, FirstMove(U()))
      ensures !device.link.Dead? && failures == 0 ==> AllPlaced(pl, device.t, restored, |restored|)
    {
      hide Reconciled, UndoGrew, RollbackTable, UndoOf, UndoTable, Shown, Chosen, KeysWith, Reached, EachOnce, InOldPlace;
      ghost var u, h := U(), device.history;
      if clean { ReconciledPlan(pl, start, touched, post0, post, noop); }
      ReviveDeleted();
      ghost var h1 := device.history;
      if device.link.Dead? { return; }
      ghost var kinds := Restrict();
      if clean { Advance(u, h, h1, device.history); }
      h1 := device.history;
      if device.link.Dead? { return; }
      Permit(kinds);
      if clean { Advance(u, h, h1, device.history); }
      h1 := device.history;
      if device.link.Dead? { return; }
      if clean {
        KindsComplete(pl, start, touched, post0, KeysWith(pl, touched, EVERY_KIND));
        BaseIsShown(pl, start, touched, post0);
      }
      RestoreOrder();
      if clean { Advance(u, h, h1, device.history); }
    }

    /** The whole rollback, on whatever table it finds. Unless every outcome can be
        attributed nothing is written. When nobody else was at work, every table it
        shows accepts only what the first table, the saved one or an escaping packet's
        moment accepts, wherever the connection may be lost. If it holds, the table ends
        as the snapshot saw it; and on the way only packets of the two ends are accepted
        if and only if no packet escapes that the saved table would not accept. */
    method Rollback() returns (ok: bool)
      requires |post| == |pl.snaps| == |pl.ids| && Distinct(touched) && forall j :: 0 <= j < |touched| ==> touched[j] < |pl.snaps|
      requires noop == {} && recreated == {} && rolledBack == {} && restored == [] && failures == 0 && post == post0
      requires start == device.t && EachOnce(start) && device.history != [] && device.history[|device.history| - 1] == device.t
      requires !device.link.Dead? && (clean <==> CleanStop(pl, start, touched, post))
      modifies this, device
      ensures !old(AllLeft(pl, device.t, touched, post)) ==> !ok && device.t == old(device.t) && device.history == old(device.history)
      ensures old(device.history) <= device.history
      ensures ok ==> old(AllLeft(pl, device.t, touched, post)) && AllPlaced(pl, device.t, restored, |restored|)
      ensures clean ==> old(AllLeft(pl, device.t, touched, post))
      ensures clean && ok ==> device.t == pl.base
      ensures clean && old(device.link).Stable? ==> ok
      ensures clean && AcceptTurnsWhole(pl) ==>
        forall j, p: Packet :: |old(device.history)| <= j < |device.history| && Accepts(device.history[j], p) ==>
          Accepts(old(device.t), p) || Accepts(pl.base, p) || Escapes(UndoOf(pl, old(device.t), touched), p)
      ensures clean && ok && AcceptTurnsWhole(pl) ==>
        (OnlyKnownPackets(old(device.history), device.history, old(device.t), pl.base)
         <==> forall p: Packet :: Escapes(UndoOf(pl, old(device.t), touched), p) ==> Accepts(pl.base, p))
    {
      hide Attribute, UndoOf, UndoGrew, Shown, Escapes, Pos, Accepts, CleanStop, Reconciled, EachOnce, LeftByRun, Untouched, ShownBy, InOldPlace;
      Reconcile();
      ok := failures == 0;
      if clean { CleanIsLeft(pl, start, touched, post0); }
      if ok {
        if clean {
          forall j | 0 <= j < |touched| ensures touched[j] < |post0| { assert IsAttributed(touched[j]); }
          StoppedReconciles(pl, start, touched, post0, post, noop);
          CleanStopFacts(pl, start, touched, post0);
        }
        forall j: nat ensures RestoredOk(j) { }
        Compensate();
        ok := failures == 0 && !device.link.Dead?;
        if clean { RollbackHistory(pl, start, touched, post0, old(device.history), device.history, ok); }
      }
    }

    /** Puts a recreated policy in place, enables it and reads it back. */
    method Activate(i: nat, ghost k: MKey, ghost t: Table, ghost next: Table) returns (ok: bool)
      requires Sane() && i < |pl.snaps| && pl.snaps[i].restore.enabled
      requires clean ==> Bound() && device.t == t && TableOk(t) && k in t.order
      requires clean ==> Find(t, Name(pl, i)) == Found(k)
      requires clean ==> pl.snaps[i].beforeMKey != Some(k) && pl.snaps[i].afterMKey != Some(k)
      requires clean ==> Repositioned(t.order, k, pl.snaps[i].beforeMKey, pl.snaps[i].afterMKey) == t.order
      requires clean ==> Step(t, Put(k, StatusOnly(true))) == next && Find(next, Name(pl, i)) == Found(k)
      requires clean ==> k in next.rows && next.rows[k].rule == pl.snaps[i].restore
      modifies device
      ensures Sane() && old(device.history) <= device.history && (old(device.link).Stable? ==> device.link.Stable?)
      ensures ok ==> exists k :: Bears(device.t, k, pl.snaps[i].command.name) && device.t.rows[k].rule == pl.snaps[i].restore
      ensures clean ==> (ok <==> !device.link.Dead?) && (ok ==> Bound() && device.t == next)
      ensures clean ==> PhaseGrew(old(device.history), device.history, t, next)
    {
      hide Reconciled, Find, Step, Repositioned, TableOk, EachOnce;
      var s := pl.snaps[i];
      var found := Find(device.t, s.command.name);
      ok := found.Found?;
      if ok {
        ghost var h := device.history;
        ok := RestorePosition(device, found.k, s.beforeMKey, s.afterMKey);
        assert clean ==> device.t == t;
        if ok {
          ghost var h' := device.history;
          var sent := device.Send(Put(found.k, StatusOnly(s.restore.enabled)));
          var again := Find(device.t, s.command.name);
          FindIs(device.t, s.command.name);
          ok := sent && again.Found? && again.k in device.t.rows && device.t.rows[again.k].rule == s.restore;
          assert h + [t] + [device.t] == h + [t, device.t];
        }
      }
    }
  }

  /** The policy bears its name and stands next to its saved neighbours. */
  ghost predicate InOldPlace(t: Table, s: Snapshot) {
    exists k :: Bears(t, k, s.command.name) && Between(t.order, s, k)
  }

  /** So do the first `n` policies of a list. */
  ghost predicate AllPlaced(pl: Plan, t: Table, restored: seq<nat>, n: nat) {
    forall j :: 0 <= j < n && j < |restored| && restored[j] < |pl.snaps| ==> InOldPlace(t, pl.snaps[restored[j]])
  }

  ghost predicate Between(order: seq<MKey>, s: Snapshot, k: MKey) {
    && (s.beforeMKey.Some? ==> Linked(order, k, s.beforeMKey.value))
    && (s.afterMKey.Some? ==> Linked(order, s.afterMKey.value, k))
  }

  lemma CheckedPlace(t: Table, s: Snapshot, k: MKey)
    requires EachOnce(t) && Find(t, s.command.name) == Found(k)
    requires s.beforeMKey.Some? ==> Below(t.order, k) == s.beforeMKey
    requires s.afterMKey.Some? ==> AboveOf(t.order, k) == s.afterMKey
    ensures InOldPlace(t, s)
  {
    hide Find;
    FindIs(t, s.command.name);
    assert k in Elements(t.order);
    if s.beforeMKey.Some? { PosIs(t.order, Pos(t.order, k) + 1); }
    if s.afterMKey.Some? { PosIs(t.order, Pos(t.order, k) - 1); }
    assert Between(t.order, s, k);
  }

  // ---------------------------------------------------------------- undoing one command

  /** What undoing a command checks before it writes. */
  predicate MayWrite(t: Table, s: Snapshot, a: Attribution, found: Lookup, controlled: set<MKey>) {
    && a.Bound? && !a.post.Unobserved? && Undisturbed(a.post.order, t.order, controlled)
    && if s.command.operation == Delete then s.existed && a.post.Gone? && found == Missing
       else a.post.Seen? && found == Found(a.post.k) && a.post.k in t.rows && t.rows[a.post.k].rule == a.post.state
  }

  function UndoWrite(s: Snapshot, a: Attribution): Write
    requires a.Bound? && (s.command.operation == Upsert ==> a.post.Seen?)
  {
    if s.command.operation == Delete then Create(s.mkey, Row(s.command.name, s.restore.(enabled := false)))
    else if s.existed then Put(a.post.k, Whole(s.restore))
    else Remove(a.post.k)
  }

  /** What undoing a command checks afterwards. */
  predicate ReadsBack(t: Table, s: Snapshot, a: Attribution)
    requires a.Bound? && (s.command.operation == Upsert ==> a.post.Seen?)
  {
    var found := Find(t, s.command.name);
    if s.command.operation == Delete then found == Found(s.mkey) && s.mkey in t.rows && t.rows[s.mkey].rule == s.restore.(enabled := false)
    else if s.existed then found == Found(a.post.k) && a.post.k in t.rows && t.rows[a.post.k].rule == s.restore
    else found == Missing
  }

  lemma ReadBackIsUndone(t: Table, s: Snapshot, a: Attribution)
    requires EachOnce(t) && a.Bound? && (s.command.operation == Delete ==> s.existed) && (s.command.operation == Upsert ==> a.post.Seen?)
    ensures ReadsBack(t, s, a) ==> IsUndone(t, s)
  {
    hide Find;
    FindIs(t, s.command.name);
    if ReadsBack(t, s, a) && s.existed {
      var k := if s.command.operation == Delete then s.mkey else a.post.k;
      assert Bears(t, k, s.command.name) && IsRestored(t.rows[k].rule, k, s);
    }
  }

  /** The checks before a write find out whether somebody else was there. */
  lemma CheckedUndo(t: Table, s: Snapshot, post: Post, controlled: set<MKey>)
    requires EachOnce(t)
    ensures var a := Attribute(t, s, post);
      && (a.NoEffect? ==> Untouched(t, s, post))
      && (MayWrite(t, s, a, Find(t, s.command.name), controlled) ==> MayUndo(t, s, post, controlled))
  {
    hide Attribute, Find, View, LeftByRun, Untouched, ShownBy;
    AttributeIs(t, s, post);
    FindIs(t, s.command.name);
    var a := Attribute(t, s, post);
    if MayWrite(t, s, a, Find(t, s.command.name), controlled) {
      assert StillShown(t, s, post, a.post, controlled);
    }
  }

  lemma WhatGoesThrough(t: Table, next: Table, s: Snapshot, post: Post, controlled: set<MKey>)
    requires GoesThrough(t, next, s, post, controlled)
    ensures var a := Attribute(t, s, post);
      MayWrite(t, s, a, Find(t, s.command.name), controlled) && next == Step(t, UndoWrite(s, a)) && ReadsBack(next, s, a)
  {
    hide Attribute, Find, Step, Undisturbed;
  }

  lemma NoElements()
    ensures Elements([]) == {}
  {
  }

  lemma ElementsMore(s: seq<nat>, i: nat)
    ensures Elements(s + [i]) == Elements(s) + {i}
  {
  }

  /** Since `h0`, every table accepts only packets that `first` or `last` accepts. */
  ghost predicate OnlyKnownPackets(h0: seq<Table>, h1: seq<Table>, first: Table, last: Table) {
    forall j, p: Packet :: |h0| <= j < |h1| && Accepts(h1[j], p) ==> Accepts(first, p) || Accepts(last, p)
  }

  lemma HistoryTable(pl: Plan, start: Table, touched: seq<nat>, post: seq<Post>, h0: seq<Table>, h1: seq<Table>, j: nat, p: Packet)
    requires CleanStop(pl, start, touched, post) && AcceptTurnsWhole(pl)
    requires UndoGrew(UndoOf(pl, start, touched), h0, h1) && |h0| <= j < |h1|
    ensures Accepts(h1[j], p) ==> Accepts(start, p) || Accepts(pl.base, p) || Escapes(UndoOf(pl, start, touched), p)
  {
    hide CleanStop, UndoOk, Escapes, Accepts, RollbackTable, AcceptTurnedWhole, AcceptTurnsWhole;
    CleanStopFacts(pl, start, touched, post);
    var u := UndoOf(pl, start, touched);
    UndoOfOk(pl, start, touched, post);
    TurnedWhole(pl, start, touched, post);
    assert ShowsUndo(u, h1, j);
    EveryRollbackTableIsSafe(u, h1[j], p);
  }

  /** An escaping packet is accepted by a table that the rollback has shown. */
  lemma EscapeIsShown(pl: Plan, start: Table, touched: seq<nat>, post: seq<Post>, h0: seq<Table>, h1: seq<Table>, p: Packet) returns (j: nat)
    requires CleanStop(pl, start, touched, post) && h0 != [] && h0[|h0| - 1] == start && h0 <= h1
    requires var u := UndoOf(pl, start, touched); u.todo != [] ==> Shown(h0, h1, FirstMove(u))
    requires Escapes(UndoOf(pl, start, touched), p)
    ensures |h0| <= j < |h1| && Accepts(h1[j], p) && !Accepts(start, p)
  {
    hide CleanStop, UndoOk, AcceptsIn, RestoredTo, Revived, Laid, Pos, Without, Lowest, Silent, VerdictAt, Chosen;
    CleanStopFacts(pl, start, touched, post);
    var u := UndoOf(pl, start, touched);
    UndoOfOk(pl, start, touched, post);
    FirstMoveLetsEscape(u, p);
    j :| |h0| - 1 <= j < |h1| && j >= 0 && h1[j] == FirstMove(u);
  }

  lemma RollbackHistory(pl: Plan, start: Table, touched: seq<nat>, post: seq<Post>, h0: seq<Table>, h1: seq<Table>, complete: bool)
    requires CleanStop(pl, start, touched, post) && h0 != [] && h0[|h0| - 1] == start
    requires UndoGrew(UndoOf(pl, start, touched), h0, h1)
    requires var u := UndoOf(pl, start, touched); complete && u.todo != [] ==> Shown(h0, h1, FirstMove(u))
    ensures h0 <= h1
    ensures AcceptTurnsWhole(pl) ==>
      forall j, p: Packet :: |h0| <= j < |h1| && Accepts(h1[j], p) ==>
        Accepts(start, p) || Accepts(pl.base, p) || Escapes(UndoOf(pl, start, touched), p)
    ensures complete && AcceptTurnsWhole(pl) ==>
      (OnlyKnownPackets(h0, h1, start, pl.base)
       <==> forall p: Packet :: Escapes(UndoOf(pl, start, touched), p) ==> Accepts(pl.base, p))
  {
    hide CleanStop, Escapes, Accepts, Shown;
    CleanStopFacts(pl, start, touched, post);
    if AcceptTurnsWhole(pl) {
      forall j, p: Packet | |h0| <= j < |h1| && Accepts(h1[j], p)
        ensures Accepts(start, p) || Accepts(pl.base, p) || Escapes(UndoOf(pl, start, touched), p)
      {
        HistoryTable(pl, start, touched, post, h0, h1, j, p);
      }
      if complete && OnlyKnownPackets(h0, h1, start, pl.base) {
        forall p: Packet | Escapes(UndoOf(pl, start, touched), p) ensures Accepts(pl.base, p) {
          var j := EscapeIsShown(pl, start, touched, post, h0, h1, p);
        }
      }
    }
  }

  /** A restored policy is found in the saved table, at its saved place. */
  lemma RestoredIsHome(pl: Plan, i: nat)
    requires PlanOk(pl) && i < |pl.snaps| && pl.snaps[i].existed
    ensures var s := pl.snaps[i];
      && Find(pl.base, s.command.name) == Found(s.mkey) && s.mkey in pl.base.order
      && s.beforeMKey != Some(s.mkey) && s.afterMKey != Some(s.mkey)
      && Repositioned(pl.base.order, s.mkey, s.beforeMKey, s.afterMKey) == pl.base.order
      && Below(pl.base.order, s.mkey) == s.beforeMKey && AboveOf(pl.base.order, s.mkey) == s.afterMKey
  {
    hide Pos, Find, Repositioned, Below, AboveOf;
    assert SnapshotOk(pl, i);
    var k := pl.snaps[i].mkey;
    FindKey(pl.base, k);
    assert k in Elements(pl.base.order);
    OwnNeighbours(pl.base.order, k);
    RestoredStays(pl.base.order, k);
  }

  /** The base is a table of the rollback. */
  lemma BaseIsShown(pl: Plan, start: Table, touched: seq<nat>, post: seq<Post>)
    requires CleanStop(pl, start, touched, post)
    ensures RollbackTable(UndoOf(pl, start, touched), pl.base)
  {
    hide UndoTable, UndoInPhase, KeysWith, CleanStop;
    CleanStopFacts(pl, start, touched, post);
    var done := KeysWith(pl, touched, EVERY_KIND);
    KindsComplete(pl, start, touched, post, done);
    assert EVERY_KIND - {NewDeny} + {NewDeny} == EVERY_KIND;
    MoreKindsMoreKeys(pl, touched, EVERY_KIND - {NewDeny}, EVERY_KIND);
    assert Reached(EVERY_KIND - {NewDeny}, NewDeny);
    KindsInPhase(pl, start, touched, post, EVERY_KIND - {NewDeny}, NewDeny, done);
  }

  /** A stopped run leaves every command as it can have left it. */
  lemma CleanIsLeft(pl: Plan, t: Table, touched: seq<nat>, post: seq<Post>)
    requires CleanStop(pl, t, touched, post)
    ensures AllLeft(pl, t, touched, post)
  {
    hide CleanStop, LeftByRun, Attribute;
    CleanStopFacts(pl, t, touched, post);
    CleanIsListed(pl, t, touched, post);
    forall j | 0 <= j < |touched| && touched[j] < |pl.snaps| && touched[j] < |post| ensures LeftByRun(t, pl.snaps[touched[j]], post[touched[j]]) {
      StoppedIsAttributable(pl, t, touched, post, touched[j]);
      AttributeIs(t, pl.snaps[touched[j]], post[touched[j]]);
    }
  }

  lemma CleanIsListed(pl: Plan, t: Table, touched: seq<nat>, post: seq<Post>)
    requires CleanStop(pl, t, touched, post)
    ensures EachOnce(t)
  {
  }

  lemma StoppedReconciles(pl: Plan, start: Table, touched: seq<nat>, post0: seq<Post>, post: seq<Post>, noop: set<nat>)
    requires CleanStop(pl, start, touched, post0) && |post| == |pl.snaps|
    requires forall j :: 0 <= j < |touched| ==> touched[j] < |pl.snaps| && touched[j] < |post0|
    requires forall j :: 0 <= j < |touched| ==>
      var i := touched[j];
      var a := Attribute(start, pl.snaps[i], post0[i]);
      (i in noop <==> a.NoEffect?) && post[i] == if a.Bound? then a.post else post0[i]
    ensures Reconciled(pl, start, touched, post0, post, noop)
  {
    hide CleanStop, Attribute, OrderKept, KnownOrder;
    CleanStopFacts(pl, start, touched, post0);
    forall i: nat ensures Attributed(pl, start, touched, post, noop, i) {
      if i in touched && i < |pl.snaps| {
        assert touched[Pos(touched, i)] == i;
        StoppedIsAttributable(pl, start, touched, post0, i);
      }
    }
    forall i: nat ensures SeenOwn(pl, touched, post, i) {
      if i in touched && i < |pl.snaps| && post[i].Seen? {
        assert touched[Pos(touched, i)] == i;
        assert Attributed(pl, start, touched, post, noop, i);
        SeenIsOwn(pl, start, touched, post0, i);
      }
    }
  }

  lemma SeenIsOwn(pl: Plan, start: Table, touched: seq<nat>, post0: seq<Post>, i: nat)
    requires CleanStop(pl, start, touched, post0) && i < |pl.snaps|
    ensures i < |post0| && (post0[i].Seen? ==> post0[i].k == Key(pl, i))
  {
    hide TableOk, Grounded;
    assert PostOk(pl, start.rows, touched, post0, i);
  }

  /** The keys of the kinds dealt with and of the first `j` commands of the next. */
  function DoneBy(pl: Plan, touched: seq<nat>, kinds: set<Kind>, list: seq<nat>, j: nat): set<MKey>
    requires |pl.snaps| == |pl.ids|
  {
    KeysWith(pl, touched, kinds) + set l | 0 <= l < j && l < |list| && list[l] < |pl.snaps| :: Key(pl, list[l])
  }

  lemma DoneByIs(pl: Plan, touched: seq<nat>, kinds: set<Kind>, kind: Kind, list: seq<nat>, j: nat)
    requires PlanOk(pl) && Distinct(touched) && list == Chosen(pl, touched, {kind}) && j <= |list| && kind !in kinds
    ensures Listed(pl, list)
    ensures DoneBy(pl, touched, kinds, list, j) == KeysWith(pl, touched, kinds) + Elements(KeysOf(pl, list)[..j])
  {
    hide Chosen, KeysWith, Pos;
    KeysWithMore(pl, touched, kinds, kind, list, j);
    var ks := KeysOf(pl, list);
    forall k ensures k in ks[..j] <==> k in (set l | 0 <= l < j && l < |list| && list[l] < |pl.snaps| :: Key(pl, list[l])) {
      if k in ks[..j] { assert Key(pl, list[Pos(ks[..j], k)]) == k; }
      if k in (set l | 0 <= l < j && l < |list| && list[l] < |pl.snaps| :: Key(pl, list[l])) {
        var l :| 0 <= l < j && l < |list| && list[l] < |pl.snaps| && Key(pl, list[l]) == k;
        assert ks[..j][l] == k;
      }
    }
  }

  lemma DoneBounds(pl: Plan, touched: seq<nat>, kinds: set<Kind>, kind: Kind, list: seq<nat>)
    requires PlanOk(pl) && Distinct(touched) && list == Chosen(pl, touched, {kind}) && kind !in kinds
    ensures DoneBy(pl, touched, kinds, list, 0) == KeysWith(pl, touched, kinds)
    ensures DoneBy(pl, touched, kinds, list, |list|) == KeysWith(pl, touched, kinds + {kind})
  {
    hide Chosen, KeysWith;
    DoneByIs(pl, touched, kinds, kind, list, 0);
    DoneByIs(pl, touched, kinds, kind, list, |list|);
    KeysWithMore(pl, touched, kinds, kind, list, |list|);
    assert Elements(KeysOf(pl, list)[..0]) == {};
  }

  /** The step from one command of a kind to the next. */
  lemma DoneStep(pl: Plan, start: Table, touched: seq<nat>, post: seq<Post>, kinds: set<Kind>, kind: Kind, list: seq<nat>, j: nat)
    requires CleanStop(pl, start, touched, post) && list == Chosen(pl, touched, {kind}) && j < |list| && kind !in kinds && Reached(kinds, kind)
    ensures list[j] in touched && IsKind(pl, {kind}, list[j])
    ensures var u, done, done' := UndoOf(pl, start, touched), DoneBy(pl, touched, kinds, list, j), DoneBy(pl, touched, kinds, list, j + 1);
      UndoInPhase(u, done) && UndoInPhase(u, done') && done' == done + {Key(pl, list[j])} && Key(pl, list[j]) !in done
  {
    hide Chosen, KeysWith, DoneBy, UndoInPhase, Grounded, TableOk, KindOf, Reached;
    DoneByIs(pl, touched, kinds, kind, list, j);
    DoneByIs(pl, touched, kinds, kind, list, j + 1);
    KeysWithMore(pl, touched, kinds, kind, list, j);
    KeysWithMore(pl, touched, kinds, kind, list, j + 1);
    KindsInPhase(pl, start, touched, post, kinds, kind, DoneBy(pl, touched, kinds, list, j));
    KindsInPhase(pl, start, touched, post, kinds, kind, DoneBy(pl, touched, kinds, list, j + 1));
  }

  lemma KindTurn(pl: Plan, start: Table, touched: seq<nat>, post0: seq<Post>, post: seq<Post>, noop: set<nat>,
                 kinds: set<Kind>, kind: Kind, list: seq<nat>, j: nat)
    requires Reconciled(pl, start, touched, post0, post, noop) && kind !in DELETED
    requires list == Chosen(pl, touched, {kind}) && j < |list| && kind !in kinds && Reached(kinds, kind)
    ensures var u, i, done' := UndoOf(pl, start, touched), list[j], DoneBy(pl, touched, kinds, list, j + 1);
      var t, next := UndoTable(u, DoneBy(pl, touched, kinds, list, j)), UndoTable(u, done');
      && i in touched && i < |pl.snaps| && pl.snaps[i].command.operation == Upsert
      && UndoInPhase(u, done') && UndoInPhase(u, DoneBy(pl, touched, kinds, list, j))
      && (i in noop ==> next == t)
      && (i !in noop ==> GoesThrough(t, next, pl.snaps[i], post[i], Controlled(pl, touched, post)))
  {
    hide Chosen, KeysWith, DoneBy, UndoInPhase, GoesThrough, UndoTable, CleanStop, Controlled, AllAttributed;
    ReconciledPlan(pl, start, touched, post0, post, noop);
    var u, i, done := UndoOf(pl, start, touched), list[j], DoneBy(pl, touched, kinds, list, j);
    DoneStep(pl, start, touched, post0, kinds, kind, list, j);
    NotDeleted(pl, kind, i);
    if i in noop {
      NoopIsUnchanged(pl, start, touched, post0, post, noop, i);
      UndoNothing(u, done, Key(pl, i));
    } else {
      UndoingGoesThrough(pl, start, touched, post0, post, noop, i, done);
    }
  }

  lemma ActivationTurn(pl: Plan, start: Table, touched: seq<nat>, post0: seq<Post>, post: seq<Post>, noop: set<nat>,
                       kinds: set<Kind>, kind: Kind, list: seq<nat>, j: nat) returns (m: nat)
    requires Reconciled(pl, start, touched, post0, post, noop) && kind in DELETED
    requires list == Chosen(pl, touched, {kind}) && j < |list| && kind !in kinds && Reached(kinds, kind)
    ensures var u, i := UndoOf(pl, start, touched), list[j];
      var done, done' := DoneBy(pl, touched, kinds, list, j), DoneBy(pl, touched, kinds, list, j + 1);
      var t, next := UndoTable(u, done), UndoTable(u, done');
      && i in DeletedList(pl, touched) && i < |pl.snaps| && UndoInPhase(u, done) && UndoInPhase(u, done') && m < |u.todo|
      && (i in noop ==> next == t)
      && (i !in noop ==>
            var k, s := u.todo[m], pl.snaps[i];
            && TableOk(t) && k in t.order && Find(t, Name(pl, i)) == Found(k) && s.restore.enabled
            && s.beforeMKey != Some(k) && s.afterMKey != Some(k) && Repositioned(t.order, k, s.beforeMKey, s.afterMKey) == t.order
            && Step(t, Put(k, StatusOnly(true))) == next
            && Find(next, Name(pl, i)) == Found(k) && k in next.rows && next.rows[k].rule == s.restore)
  {
    hide Chosen, KeysWith, DoneBy, UndoInPhase, CleanStop, Controlled, AllAttributed, Find, Repositioned, RestoredTo, Only, Reordered;
    ReconciledPlan(pl, start, touched, post0, post, noop);
    var u, i, done := UndoOf(pl, start, touched), list[j], DoneBy(pl, touched, kinds, list, j);
    DoneStep(pl, start, touched, post0, kinds, kind, list, j);
    m := DeletedIndex(pl, start, touched, post0, post, noop, kind, i);
    if i in noop {
      NoopIsUnchanged(pl, start, touched, post0, post, noop, i);
      UndoNothing(u, done, Key(pl, i));
    } else {
      ActivationGoesThrough(pl, start, touched, post0, post, noop, m, done);
      ActivationPlace(pl, start, touched, post0, post, noop, m, UndoTable(u, done).order);
      FoundIsListed(UndoTable(u, done), Name(pl, i), u.todo[m]);
    }
  }

  lemma FoundIsListed(t: Table, name: string, k: MKey)
    requires Find(t, name) == Found(k)
    ensures k in t.order
  {
    MatchesListed(t.order, t.rows, name);
  }

  lemma {:induction false} MatchesListed(order: seq<MKey>, rows: map<MKey, Row>, name: string)
    ensures forall k :: k in Matches(order, rows, name) ==> k in order
  {
    if order != [] { MatchesListed(order[1..], rows, name); }
  }

  lemma ReconciledPlan(pl: Plan, start: Table, touched: seq<nat>, post0: seq<Post>, post: seq<Post>, noop: set<nat>)
    requires Reconciled(pl, start, touched, post0, post, noop)
    ensures PlanOk(pl) && Distinct(touched) && CleanStop(pl, start, touched, post0) && UndoOk(UndoOf(pl, start, touched))
  {
    UndoReady(pl, start, touched, post0, post, noop);
  }

  lemma NotDeleted(pl: Plan, kind: Kind, i: nat)
    requires PlanOk(pl) && IsKind(pl, {kind}, i) && kind !in DELETED
    ensures i < pl.ups && pl.snaps[i].command.operation == Upsert
  {
    DeletedAre(pl, i);
    assert SnapshotOk(pl, i);
  }

  lemma NoopIsUnchanged(pl: Plan, start: Table, touched: seq<nat>, post0: seq<Post>, post: seq<Post>, noop: set<nat>, i: nat)
    requires Reconciled(pl, start, touched, post0, post, noop) && i in touched && i in noop && i < |pl.snaps| == |pl.ids|
    ensures !Changed(Revived(UndoOf(pl, start, touched)), pl.base.rows, Key(pl, i))
  {
    hide CleanStop;
    assert Attributed(pl, start, touched, post, noop, i);
  }

  lemma DeletedIndex(pl: Plan, start: Table, touched: seq<nat>, post0: seq<Post>, post: seq<Post>, noop: set<nat>, kind: Kind, i: nat) returns (m: nat)
    requires Reconciled(pl, start, touched, post0, post, noop) && kind in DELETED && i in touched && IsKind(pl, {kind}, i)
    ensures m < |DeletedList(pl, touched)| && DeletedList(pl, touched)[m] == i && i in DeletedList(pl, touched)
    ensures m < |UndoOf(pl, start, touched).todo| && UndoOf(pl, start, touched).todo[m] == Key(pl, i)
    ensures pl.snaps[i].restore.enabled
  {
    hide Pos, Grounded, TableOk;
    ChosenFacts(pl, touched, DELETED);
    assert IsKind(pl, DELETED, i);
    m := Pos(DeletedList(pl, touched), i);
    DeletedItem(pl, start, touched, post0, post, noop, m);
    assert SnapshotOk(pl, i);
  }

  lemma ActivationPlace(pl: Plan, start: Table, touched: seq<nat>, post0: seq<Post>, post: seq<Post>, noop: set<nat>, m: nat, order: seq<MKey>)
    requires Reconciled(pl, start, touched, post0, post, noop) && m < |DeletedList(pl, touched)|
    ensures var u, i := UndoOf(pl, start, touched), DeletedList(pl, touched)[m];
      && m < |u.todo| && i < |pl.snaps|
      && Repositioned(order, u.todo[m], pl.snaps[i].beforeMKey, pl.snaps[i].afterMKey) == RestoredTo(pl.base.order, order, u.todo[m])
      && pl.snaps[i].beforeMKey != Some(u.todo[m]) && pl.snaps[i].afterMKey != Some(u.todo[m])
  {
    hide Pos, Grounded, Find, Chosen, Recorded, Only, View, Repositioned, Below, AboveOf, Distinct;
    var u, i := UndoOf(pl, start, touched), DeletedList(pl, touched)[m];
    DeletedItem(pl, start, touched, post0, post, noop, m);
    UndoReady(pl, start, touched, post0, post, noop);
    assert SnapshotOk(pl, i);
    BaseKeys(u, u.todo[m]);
    OwnNeighbours(pl.base.order, u.todo[m]);
  }

  lemma PhaseShown(u: Undo, h: seq<Table>, h': seq<Table>, h2: seq<Table>, t: Table, done: set<MKey>)
    requires UndoGrew(u, h, h') && UndoInPhase(u, done) && t == UndoTable(u, done) && (h2 == h' || h2 == h' + [t])
    ensures UndoGrew(u, h, h2)
  {
    hide UndoInPhase, UndoTable;
    assert RollbackTable(u, t);
    if h2 != h' {
      UndoGrewOnce(u, h', t);
      UndoGrewTwice(u, h, h', h2);
    }
  }

  lemma HomeShown(u: Undo, h: seq<Table>, h': seq<Table>, h2: seq<Table>, t: Table)
    requires UndoGrew(u, h, h') && RollbackTable(u, t) && (h2 == h' || h2 == h' + [t])
    ensures UndoGrew(u, h, h2)
  {
    hide RollbackTable;
    if h2 != h' {
      UndoGrewOnce(u, h', t);
      UndoGrewTwice(u, h, h', h2);
    }
  }

  lemma ShownSooner(u: Undo, h0: seq<Table>, h1: seq<Table>, h2: seq<Table>, t: Table)
    requires Shown(h1, h2, t) && UndoGrew(u, h0, h1)
    ensures Shown(h0, h2, t)
  {
  }

  /** Nothing, one or two of the tables `t` and `next` were shown. */
  predicate PhaseGrew(h: seq<Table>, h2: seq<Table>, t: Table, next: Table) {
    h2 == h || h2 == h + [t] || h2 == h + [next] || h2 == h + [t, t] || h2 == h + [t, next]
  }

  /** One more phase is over. */
  lemma Advance(u: Undo, h: seq<Table>, h1: seq<Table>, h2: seq<Table>)
    requires UndoGrew(u, h, h1) && UndoGrew(u, h1, h2)
    ensures UndoGrew(u, h, h2)
    ensures u.todo != [] && Shown(h, h1, FirstMove(u)) ==> Shown(h, h2, FirstMove(u))
  {
    hide FirstMove;
    UndoGrewTwice(u, h, h1, h2);
    if u.todo != [] && Shown(h, h1, FirstMove(u)) { ShownLater(h, h1, h2, FirstMove(u)); }
  }

  lemma TwoPhasesShown(u: Undo, h: seq<Table>, h': seq<Table>, h2: seq<Table>, done: set<MKey>, done': set<MKey>)
    requires UndoGrew(u, h, h') && UndoInPhase(u, done) && UndoInPhase(u, done')
    requires PhaseGrew(h', h2, UndoTable(u, done), UndoTable(u, done'))
    ensures UndoGrew(u, h, h2)
  {
    hide UndoInPhase, UndoTable, UndoGrew;
    var t, next := UndoTable(u, done), UndoTable(u, done');
    if h2 == h' + [next] {
      PhaseShown(u, h, h', h2, next, done');
    } else if h2 == h' || h2 == h' + [t] {
      PhaseShown(u, h, h', h2, t, done);
    } else {
      PhaseShown(u, h, h', h' + [t], t, done);
      if h2 == h' + [t, t] {
        assert h2 == h' + [t] + [t];
        PhaseShown(u, h, h' + [t], h2, t, done);
      } else {
        assert h2 == h' + [t] + [next];
        PhaseShown(u, h, h' + [t], h2, next, done');
      }
    }
  }

  lemma PassesUnfold(base: seq<MKey>, s: seq<MKey>, todo: seq<MKey>, n: nat)
    requires n > 0
    ensures Passes(base, s, todo, n) == Passes(base, Pass(base, s, todo), todo, n - 1)
  {
  }

  lemma PassesEnd(base: seq<MKey>, s: seq<MKey>, todo: seq<MKey>)
    ensures Passes(base, s, todo, 0) == s
  {
  }

  lemma PassUnfold(base: seq<MKey>, s: seq<MKey>, todo: seq<MKey>)
    requires todo != []
    ensures Pass(base, s, todo) == Pass(base, RestoredTo(base, s, todo[0]), todo[1..])
  {
  }

  lemma PassEnd(base: seq<MKey>, s: seq<MKey>, todo: seq<MKey>)
    requires todo == []
    ensures Pass(base, s, todo) == s
  {
  }

  /** What the repositioning of a deleted policy finds. */
  lemma SavedPlace(pl: Plan, start: Table, touched: seq<nat>, post0: seq<Post>, post: seq<Post>, noop: set<nat>, m: nat, s: seq<MKey>)
    requires Reconciled(pl, start, touched, post0, post, noop) && m < |DeletedList(pl, touched)|
    requires Sinking(UndoOf(pl, start, touched), s)
    ensures var u, i := UndoOf(pl, start, touched), DeletedList(pl, touched)[m];
      && m < |u.todo| && i < |pl.snaps|
      && TableOk(Table(s, Revived(u))) && u.todo[m] in s && u.todo[m] in u.todo
      && Find(Table(s, Revived(u)), pl.snaps[i].command.name) == Found(u.todo[m])
      && Repositioned(s, u.todo[m], pl.snaps[i].beforeMKey, pl.snaps[i].afterMKey) == RestoredTo(u.base.order, s, u.todo[m])
      && pl.snaps[i].beforeMKey != Some(u.todo[m]) && pl.snaps[i].afterMKey != Some(u.todo[m])
  {
    hide Pos, Grounded, Find, Chosen, Recorded, Only, View, Repositioned, Below, AboveOf, Distinct;
    var u, i := UndoOf(pl, start, touched), DeletedList(pl, touched)[m];
    DeletedItem(pl, start, touched, post0, post, noop, m);
    UndoReady(pl, start, touched, post0, post, noop);
    assert SnapshotOk(pl, i);
    PassTableOk(u, s);
    var k := u.todo[m];
    assert k in Elements(s);
    RevivedNames(u, k);
    FindKey(Table(s, Revived(u)), k);
    BaseKeys(u, k);
    OwnNeighbours(pl.base.order, k);
  }

  lemma PassMove(u: Undo, h: seq<Table>, h': seq<Table>, h2: seq<Table>, t: Table, s: seq<MKey>)
    requires UndoGrew(u, h, h') && Sinking(u, s) && t == Table(s, Revived(u)) && (h2 == h' || h2 == h' + [t])
    ensures UndoGrew(u, h, h2) && h <= h2 && h' <= h2
  {
    hide Sinking;
    assert RollbackTable(u, t);
    if h2 != h' {
      UndoGrewOnce(u, h', t);
      UndoGrewTwice(u, h, h', h2);
    }
  }

  lemma FirstIsShown(u: Undo, h: seq<Table>, h2: seq<Table>)
    requires u.todo != [] && h <= h2 && h != [] && h2[|h2| - 1] == FirstMove(u)
    ensures Shown(h, h2, FirstMove(u))
  {
    var j := |h2| - 1;
    assert h2[j] == FirstMove(u);
  }
}
