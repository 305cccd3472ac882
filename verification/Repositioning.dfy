/** The repositioning loop of a rollback: every restored policy is moved next to
    the neighbour saved in its snapshot, over and over. */
module Repositioning {
  import opened Options
  import opened PolicyTables
  import opened PolicyOrder

  /** The policy directly below `k` in the table order, and the one directly above. */
  function Below(order: seq<MKey>, k: MKey): Option<MKey> {
    if Pos(order, k) + 1 < |order| then Some(order[Pos(order, k) + 1]) else None
  }

  function AboveOf(order: seq<MKey>, k: MKey): Option<MKey> {
    if 0 < Pos(order, k) < |order| then Some(order[Pos(order, k) - 1]) else None
  }

  lemma NeighboursAre(order: seq<MKey>, k: MKey)
    requires Distinct(order) && k in order
    ensures forall y: MKey :: Below(order, k) == Some(y) <==> Linked(order, k, y)
    ensures forall y: MKey :: AboveOf(order, k) == Some(y) <==> Linked(order, y, k)
  {
    var i := Pos(order, k);
    if i + 1 < |order| { PosIs(order, i + 1); }
    if 0 < i { PosIs(order, i - 1); }
  }

  /** One repositioning: before the saved successor if that is present,
      otherwise after the saved predecessor, otherwise nowhere. */
  function Repositioned(s: seq<MKey>, k: MKey, below: Option<MKey>, above: Option<MKey>): seq<MKey> {
    if below.Some? && below.value in s then MovedBefore(s, k, below.value)
    else if above.Some? && above.value in s then MovedAfter(s, k, above.value)
    else s
  }

  function RestoredTo(base: seq<MKey>, s: seq<MKey>, k: MKey): seq<MKey> {
    Repositioned(s, k, Below(base, k), AboveOf(base, k))
  }

  function Pass(base: seq<MKey>, s: seq<MKey>, todo: seq<MKey>): seq<MKey>
    decreases |todo|
  {
    if todo == [] then s else Pass(base, RestoredTo(base, s, todo[0]), todo[1..])
  }

  function Passes(base: seq<MKey>, s: seq<MKey>, todo: seq<MKey>, n: nat): seq<MKey>
    decreases n
  {
    if n == 0 then s else Passes(base, Pass(base, s, todo), todo, n - 1)
  }

  /** The end of the run of moved keys that contains `j`. */
  function RunEnd(base: seq<MKey>, moved: set<MKey>, j: nat): (e: nat)
    requires j < |base|
    ensures j <= e < |base|
    ensures base[e] !in moved || e + 1 == |base|
    decreases |base| - j
  {
    if base[j] !in moved || j + 1 == |base| then j else RunEnd(base, moved, j + 1)
  }

  /** Every key from `j` on is moved. */
  predicate InTail(base: seq<MKey>, moved: set<MKey>, j: nat) {
    j < |base| && base[RunEnd(base, moved, j)] in moved
  }

  predicate Present(base: seq<MKey>, s: seq<MKey>, j: nat) {
    j < |base| ==> base[j] in s
  }

  predicate TailBelow(base: seq<MKey>, moved: set<MKey>, s: seq<MKey>, a: MKey, j: nat) {
    a in base && a !in moved && InTail(base, moved, j) ==> Above(s, a, base[j])
  }

  /** The state of affairs the loop starts from and keeps: the policies it does
      not move are in their saved order, and when the saved order ends in moved
      policies these stand below all the others. */
  ghost predicate Restorable(base: seq<MKey>, moved: set<MKey>, s: seq<MKey>) {
    && Distinct(base) && Distinct(s) && moved <= Elements(base)
    && (forall j: nat :: Present(base, s, j))
    && SameOrder(s, base, Elements(base) - moved)
    && (forall a, j: nat :: TailBelow(base, moved, s, a, j))
  }

  /** The index `i` belongs to a moved key that has a successor, or to the
      predecessor of a moved last key. */
  predicate Concerned(base: seq<MKey>, moved: set<MKey>, i: nat) {
    i + 1 < |base| && (base[i] in moved || (i + 2 == |base| && base[i + 1] in moved))
  }

  predicate LinkedAt(base: seq<MKey>, s: seq<MKey>, j: nat)
    requires j + 1 < |base|
  {
    Linked(s, base[j], base[j + 1])
  }

  ghost predicate Settled(base: seq<MKey>, moved: set<MKey>, s: seq<MKey>, i: nat)
    requires i + 1 < |base|
  {
    forall j :: i <= j < RunEnd(base, moved, i + 1) ==> LinkedAt(base, s, j)
  }

  lemma RestoredToKeeps(base: seq<MKey>, s: seq<MKey>, k: MKey)
    requires Distinct(s)
    ensures Distinct(RestoredTo(base, s, k)) && |RestoredTo(base, s, k)| == |s|
    ensures Elements(RestoredTo(base, s, k)) == Elements(s)
  {
    var below, above := Below(base, k), AboveOf(base, k);
    if below.Some? { MovedBeforeKeeps(s, k, below.value); }
    if above.Some? { MovedAfterKeeps(s, k, above.value); }
  }

  lemma RestoredToKeepsOthers(base: seq<MKey>, s: seq<MKey>, k: MKey, keep: set<MKey>)
    requires Distinct(s) && k !in keep
    ensures SameOrder(s, RestoredTo(base, s, k), keep)
  {
    var below, above := Below(base, k), AboveOf(base, k);
    if below.Some? { MovedBeforeKeepsOthers(s, k, below.value, keep); }
    if above.Some? { MovedAfterKeepsOthers(s, k, above.value, keep); }
  }

  lemma RestoredToMembers(base: seq<MKey>, s: seq<MKey>, k: MKey, z: MKey)
    requires Distinct(s)
    ensures z in RestoredTo(base, s, k) <==> z in s
  {
    RestoredToKeeps(base, s, k);
    assert z in Elements(s) <==> z in Elements(RestoredTo(base, s, k));
  }

  lemma StepKeepsRestorable(base: seq<MKey>, moved: set<MKey>, s: seq<MKey>, k: MKey)
    requires Restorable(base, moved, s) && k in moved
    ensures Restorable(base, moved, RestoredTo(base, s, k))
  {
    var m := RestoredTo(base, s, k);
    RestoredToKeeps(base, s, k);
    var fixed := Elements(base) - moved;
    forall j: nat ensures Present(base, m, j) {
      assert Present(base, s, j);
      if j < |base| { RestoredToMembers(base, s, k, base[j]); }
    }
    assert SameOrder(m, base, fixed) by {
      RestoredToKeepsOthers(base, s, k, fixed);
      forall z | z in m ensures z in s { RestoredToMembers(base, s, k, z); }
      SameOrderTrans(s, m, base, fixed);
    }
    forall a, j: nat ensures TailBelow(base, moved, m, a, j) {
      if a in base && a !in moved && InTail(base, moved, j) {
        TailStaysBelow(base, moved, s, k, a, j);
      }
    }
  }

  lemma TailStaysBelow(base: seq<MKey>, moved: set<MKey>, s: seq<MKey>, k: MKey, a: MKey, j: nat)
    requires Restorable(base, moved, s) && k in moved
    requires a in base && a !in moved && InTail(base, moved, j)
    ensures Above(RestoredTo(base, s, k), a, base[j])
  {
    assert TailBelow(base, moved, s, a, j);
    KnownKey(base, moved, s, j);
    if base[j] == k {
      TailMoveStaysBelow(base, moved, s, k, a, j);
    } else {
      KnownKey(base, moved, s, Pos(base, a));
      RestoredToKeepsOthers(base, s, k, {a, base[j]});
    }
  }

  /** What `Restorable` says about one key of the saved order. */
  lemma KnownKey(base: seq<MKey>, moved: set<MKey>, s: seq<MKey>, j: nat)
    requires Restorable(base, moved, s) && j < |base|
    ensures Distinct(s) && base[j] in s && base[j] in Elements(base) && Pos(base, base[j]) == j
  {
    PosIs(base, j);
    assert Present(base, s, j);
  }

  lemma TailMoveStaysBelow(base: seq<MKey>, moved: set<MKey>, s: seq<MKey>, k: MKey, a: MKey, j: nat)
    requires Restorable(base, moved, s)
    requires a in base && a !in moved && InTail(base, moved, j) && base[j] == k && k in moved
    ensures Above(RestoredTo(base, s, k), a, k)
  {
    hide Restorable, RestoredTo;
    KnownKey(base, moved, s, j);
    assert TailBelow(base, moved, s, a, j) by { InTheTail(base, moved, s, a, j); }
    if j + 1 < |base| {
      TailMovesUp(base, moved, s, k, a, j);
    } else if j > 0 {
      TailMovesDown(base, moved, s, k, a, j);
    }
  }

  lemma InTheTail(base: seq<MKey>, moved: set<MKey>, s: seq<MKey>, a: MKey, j: nat)
    requires Restorable(base, moved, s)
    ensures TailBelow(base, moved, s, a, j)
  {
  }

  lemma TailMovesUp(base: seq<MKey>, moved: set<MKey>, s: seq<MKey>, k: MKey, a: MKey, j: nat)
    requires Restorable(base, moved, s)
    requires a in base && a !in moved && InTail(base, moved, j) && base[j] == k && k in moved && j + 1 < |base|
    ensures Above(RestoredTo(base, s, k), a, k)
  {
    KnownKey(base, moved, s, j);
    KnownKey(base, moved, s, Pos(base, a));
    KnownKey(base, moved, s, j + 1);
    InTheTail(base, moved, s, a, j + 1);
    DistinctApart(base, j, j + 1);
    MovedBelow(s, k, base[j + 1], a);
  }

  lemma TailMovesDown(base: seq<MKey>, moved: set<MKey>, s: seq<MKey>, k: MKey, a: MKey, j: nat)
    requires Restorable(base, moved, s)
    requires a in base && a !in moved && InTail(base, moved, j) && base[j] == k && k in moved && 0 < j && j + 1 == |base|
    ensures Above(RestoredTo(base, s, k), a, k)
  {
    KnownKey(base, moved, s, j);
    KnownKey(base, moved, s, Pos(base, a));
    KnownKey(base, moved, s, j - 1);
    PredecessorIsLowest(base, moved, s, a, j);
    assert Apart(base, j - 1, j);
    MovedAfterBelow(s, k, base[j - 1], a);
  }

  lemma PredecessorIsLowest(base: seq<MKey>, moved: set<MKey>, s: seq<MKey>, a: MKey, j: nat)
    requires Restorable(base, moved, s)
    requires a in base && a !in moved && 0 < j && j + 1 == |base| && base[j] in moved
    ensures a == base[j - 1] || Above(s, a, base[j - 1])
  {
    if base[j - 1] in moved {
      assert RunEnd(base, moved, j) == j;
      assert TailBelow(base, moved, s, a, j - 1);
    } else if a != base[j - 1] {
      KnownKey(base, moved, s, Pos(base, a));
      KnownKey(base, moved, s, j - 1);
      assert Above(base, a, base[j - 1]);
    }
  }

  lemma {:induction false} RunOf(base: seq<MKey>, moved: set<MKey>, j: nat, l: nat)
    requires j <= l < |base| && l < RunEnd(base, moved, j)
    ensures l + 1 < |base| && base[l] in moved && RunEnd(base, moved, l + 1) == RunEnd(base, moved, j)
    decreases l - j
  {
    if j < l { RunOf(base, moved, j + 1, l); }
  }

  /** A settled run survives every further repositioning. */
  lemma StepKeepsSettled(base: seq<MKey>, moved: set<MKey>, s: seq<MKey>, k: MKey, i: nat)
    requires Restorable(base, moved, s) && k in moved
    requires Concerned(base, moved, i) && Settled(base, moved, s, i)
    ensures Settled(base, moved, RestoredTo(base, s, k), i)
  {
    var l := Pos(base, k);
    assert k in base;
    forall j | i <= j < RunEnd(base, moved, i + 1)
      ensures LinkedAt(base, RestoredTo(base, s, k), j)
    {
      assert LinkedAt(base, s, j);
      StepKeepsLink(base, moved, s, k, i, j, l);
    }
  }

  lemma StepKeepsLink(base: seq<MKey>, moved: set<MKey>, s: seq<MKey>, k: MKey, i: nat, j: nat, l: nat)
    requires Restorable(base, moved, s) && k in moved && l < |base| && base[l] == k
    requires Concerned(base, moved, i) && Settled(base, moved, s, i)
    requires i <= j < RunEnd(base, moved, i + 1) && LinkedAt(base, s, j)
    ensures LinkedAt(base, RestoredTo(base, s, k), j)
  {
    hide MovedBefore, MovedAfter;
    var e := RunEnd(base, moved, i + 1);
    KnownKey(base, moved, s, l);
    if l + 1 < |base| {
      KnownKey(base, moved, s, l + 1);
      assert i <= l < e ==> LinkedAt(base, s, l);
      LinkOutlivesMoveBefore(base, s, i, e, j, l);
    } else if l > 0 {
      KnownKey(base, moved, s, l - 1);
      assert i <= l - 1 < e ==> LinkedAt(base, s, l - 1);
      LinkOutlivesMoveAfter(base, s, i, e, j, l - 1);
    }
  }

  lemma LinkOutlivesMoveBefore(base: seq<MKey>, s: seq<MKey>, i: nat, e: nat, j: nat, l: nat)
    requires Distinct(base) && Distinct(s) && l + 1 < |base| && base[l] in s && base[l + 1] in s
    requires i <= j < e < |base| && l != e && LinkedAt(base, s, j)
    requires i <= l < e ==> LinkedAt(base, s, l)
    ensures LinkedAt(base, MovedBefore(s, base[l], base[l + 1]), j)
  {
    if i <= l < e {
      MoveToOwnPlace(s, base[l], base[l + 1]);
    } else {
      DistinctApart(base, j, l);
      MovedBeforeKeepsLink(s, base[l], base[l + 1], base[j], base[j + 1]);
    }
  }

  lemma LinkOutlivesMoveAfter(base: seq<MKey>, s: seq<MKey>, i: nat, e: nat, j: nat, l: nat)
    requires Distinct(base) && Distinct(s) && l + 2 == |base| && base[l] in s && base[l + 1] in s
    requires i <= j < e < |base| && LinkedAt(base, s, j)
    requires i <= l < e ==> LinkedAt(base, s, l)
    ensures LinkedAt(base, MovedAfter(s, base[l + 1], base[l]), j)
  {
    if i <= l < e {
      MoveToOwnPlace(s, base[l], base[l + 1]);
    } else {
      DistinctApart(base, j, l);
      assert Apart(base, j, l + 1) && Apart(base, l + 1, j);
      MovedAfterKeepsLink(s, base[l + 1], base[l], base[j], base[j + 1]);
    }
  }

  lemma DistinctApart(base: seq<MKey>, j: nat, l: nat)
    requires Distinct(base) && j < |base| && l < |base| && j != l
    ensures base[j] != base[l]
    ensures j + 1 < |base| && j + 1 != l ==> base[j + 1] != base[l]
    ensures l + 1 < |base| ==> base[l] != base[l + 1]
    ensures j + 1 < |base| && l + 1 < |base| ==> base[j + 1] != base[l + 1]
  {
    assert Apart(base, j, l) && Apart(base, l, j) && Apart(base, j + 1, l + 1) && Apart(base, l + 1, j + 1);
    assert Apart(base, j + 1, l) && Apart(base, l, j + 1) && Apart(base, l, l + 1);
  }

  /** Once the rest of its run is settled, repositioning a key settles its own run. */
  lemma StepSettles(base: seq<MKey>, moved: set<MKey>, s: seq<MKey>, i: nat)
    requires Restorable(base, moved, s) && Concerned(base, moved, i)
    requires RunEnd(base, moved, i + 1) == i + 1 || Settled(base, moved, s, i + 1)
    ensures Settled(base, moved, RestoredTo(base, s, Mover(base, moved, i)), i)
  {
    hide MovedBefore, MovedAfter;
    var k := Mover(base, moved, i);
    var m := RestoredTo(base, s, k);
    KnownKey(base, moved, s, i);
    KnownKey(base, moved, s, i + 1);
    DistinctApart(base, i + 1, i);
    if base[i] in moved {
      MovedBeforeLinks(s, k, base[i + 1]);
      assert LinkedAt(base, m, i);
      if RunEnd(base, moved, i + 1) > i + 1 {
        RunOf(base, moved, i + 1, i + 1);
        StepKeepsSettled(base, moved, s, k, i + 1);
        forall j | i <= j < RunEnd(base, moved, i + 1) ensures LinkedAt(base, m, j) {
          assert j == i || i + 1 <= j < RunEnd(base, moved, i + 2);
        }
      }
    } else {
      MovedAfterLinks(s, k, base[i]);
      assert LinkedAt(base, m, i);
    }
  }

  /** The moved key whose repositioning links index `i` to `i + 1`. */
  function Mover(base: seq<MKey>, moved: set<MKey>, i: nat): MKey
    requires Concerned(base, moved, i)
  {
    if base[i] in moved then base[i] else base[i + 1]
  }

  lemma {:induction false} PassKeepsSettled(base: seq<MKey>, moved: set<MKey>, s: seq<MKey>, todo: seq<MKey>, i: nat)
    requires Restorable(base, moved, s) && Elements(todo) <= moved
    requires Concerned(base, moved, i) && Settled(base, moved, s, i)
    ensures Settled(base, moved, Pass(base, s, todo), i)
    decreases |todo|
  {
    if todo != [] {
      assert todo[0] in Elements(todo) && Elements(todo[1..]) <= Elements(todo);
      StepKeepsRestorable(base, moved, s, todo[0]);
      StepKeepsSettled(base, moved, s, todo[0], i);
      PassKeepsSettled(base, moved, RestoredTo(base, s, todo[0]), todo[1..], i);
    }
  }

  lemma {:induction false} PassKeepsRestorable(base: seq<MKey>, moved: set<MKey>, s: seq<MKey>, todo: seq<MKey>)
    requires Restorable(base, moved, s) && Elements(todo) <= moved
    ensures Restorable(base, moved, Pass(base, s, todo)) && Elements(Pass(base, s, todo)) == Elements(s)
    decreases |todo|
  {
    if todo != [] {
      assert todo[0] in Elements(todo) && Elements(todo[1..]) <= Elements(todo);
      StepKeepsRestorable(base, moved, s, todo[0]);
      RestoredToKeeps(base, s, todo[0]);
      PassKeepsRestorable(base, moved, RestoredTo(base, s, todo[0]), todo[1..]);
    }
  }

  /** One pass, in whatever order, settles every run whose rest was settled before. */
  lemma {:induction false} PassSettles(base: seq<MKey>, moved: set<MKey>, s: seq<MKey>, todo: seq<MKey>, i: nat)
    requires Restorable(base, moved, s) && Elements(todo) <= moved
    requires Concerned(base, moved, i) && Mover(base, moved, i) in todo
    requires RunEnd(base, moved, i + 1) == i + 1 || Settled(base, moved, s, i + 1)
    ensures Settled(base, moved, Pass(base, s, todo), i)
    decreases |todo|
  {
    assert todo[0] in Elements(todo) && Elements(todo[1..]) <= Elements(todo);
    StepKeepsRestorable(base, moved, s, todo[0]);
    var m := RestoredTo(base, s, todo[0]);
    if todo[0] == Mover(base, moved, i) {
      StepSettles(base, moved, s, i);
      PassKeepsSettled(base, moved, m, todo[1..], i);
    } else {
      if RunEnd(base, moved, i + 1) > i + 1 {
        RunOf(base, moved, i + 1, i + 1);
        StepKeepsSettled(base, moved, s, todo[0], i + 1);
      }
      PassSettles(base, moved, m, todo[1..], i);
    }
  }

  ghost predicate SettledWithin(base: seq<MKey>, moved: set<MKey>, s: seq<MKey>, d: nat) {
    forall i: nat :: Concerned(base, moved, i) && RunEnd(base, moved, i + 1) - i <= d ==> Settled(base, moved, s, i)
  }

  lemma PassExtends(base: seq<MKey>, moved: set<MKey>, s: seq<MKey>, todo: seq<MKey>, d: nat)
    requires Restorable(base, moved, s) && Elements(todo) == moved
    requires SettledWithin(base, moved, s, d)
    ensures SettledWithin(base, moved, Pass(base, s, todo), d + 1)
  {
    forall i: nat | Concerned(base, moved, i) && RunEnd(base, moved, i + 1) - i <= d + 1
      ensures Settled(base, moved, Pass(base, s, todo), i)
    {
      if RunEnd(base, moved, i + 1) > i + 1 {
        RunOf(base, moved, i + 1, i + 1);
        assert Concerned(base, moved, i + 1);
      }
      assert Mover(base, moved, i) in Elements(todo);
      PassSettles(base, moved, s, todo, i);
    }
  }

  lemma {:induction false} PassesSettle(base: seq<MKey>, moved: set<MKey>, s: seq<MKey>, todo: seq<MKey>, n: nat, d: nat)
    requires Restorable(base, moved, s) && Elements(todo) == moved
    requires SettledWithin(base, moved, s, d)
    ensures Restorable(base, moved, Passes(base, s, todo, n))
    ensures Elements(Passes(base, s, todo, n)) == Elements(s)
    ensures SettledWithin(base, moved, Passes(base, s, todo, n), d + n)
    decreases n
  {
    if n > 0 {
      PassKeepsRestorable(base, moved, s, todo);
      PassExtends(base, moved, s, todo, d);
      PassesSettle(base, moved, Pass(base, s, todo), todo, n - 1, d + 1);
    }
  }

  /** Distinct moved keys bound the length of every run. */
  lemma {:induction false} RunsAreShort(base: seq<MKey>, moved: set<MKey>, lo: nat, hi: nat)
    requires Distinct(base) && lo <= hi <= |base|
    requires forall l :: lo <= l < hi ==> base[l] in moved
    ensures hi - lo <= |moved|
    decreases hi - lo
  {
    if lo < hi {
      forall l | lo + 1 <= l < hi ensures base[l] in moved - {base[lo]} { assert Apart(base, lo, l); }
      RunsAreShort(base, moved - {base[lo]}, lo + 1, hi);
    }
  }

  /** After as many passes as there are restored policies, processed in any
      order, every one of them stands directly before its saved successor, and
      the saved policies stand in exactly their saved order. */
  lemma RepositioningConverges(base: seq<MKey>, moved: set<MKey>, s: seq<MKey>, todo: seq<MKey>, n: nat)
    requires Restorable(base, moved, s) && Elements(todo) == moved && n >= |moved|
    ensures var m := Passes(base, s, todo, n);
      && Only(m, Elements(base)) == base
      && (forall k :: k in moved && Below(base, k).Some? ==> Linked(m, k, Below(base, k).value))
      && (forall i: nat :: Concerned(base, moved, i) ==> LinkedAt(base, m, i))
      && Restorable(base, moved, m) && Elements(m) == Elements(s)
  {
    var m := Passes(base, s, todo, n);
    assert SettledWithin(base, moved, s, 0);
    PassesSettle(base, moved, s, todo, n, 0);
    forall i: nat | Concerned(base, moved, i)
      ensures Settled(base, moved, m, i) && LinkedAt(base, m, i)
    {
      var e := RunEnd(base, moved, i + 1);
      if base[i] in moved {
        forall l | i <= l < e ensures base[l] in moved {
          if l > i { RunOf(base, moved, i + 1, l); }
        }
        RunsAreShort(base, moved, i, e);
      } else {
        RunsAreShort(base, moved, i + 1, i + 2);
      }
    }
    forall k | k in moved && Below(base, k).Some?
      ensures Linked(m, k, Below(base, k).value)
    {
      var i := Pos(base, k);
      assert Concerned(base, moved, i) && LinkedAt(base, m, i);
    }
    SettledIsBase(base, moved, m);
  }

  lemma SettledIsBase(base: seq<MKey>, moved: set<MKey>, m: seq<MKey>)
    requires Restorable(base, moved, m)
    requires forall i: nat :: Concerned(base, moved, i) ==> Settled(base, moved, m, i)
    ensures Only(m, Elements(base)) == base
  {
    forall i: nat ensures Descends(base, m, i) {
      if i + 1 < |base| { NextIsBelow(base, moved, m, i); }
    }
    DescendingIsBase(base, m);
  }

  predicate Descends(base: seq<MKey>, m: seq<MKey>, i: nat) {
    i + 1 < |base| ==> Above(m, base[i], base[i + 1])
  }

  lemma DescendingIsBase(base: seq<MKey>, m: seq<MKey>)
    requires Distinct(base) && Distinct(m) && (forall j: nat :: Present(base, m, j))
    requires forall i: nat :: Descends(base, m, i)
    ensures Only(m, Elements(base)) == base
  {
    OnlyFacts(m, Elements(base));
    var o := Only(m, Elements(base));
    forall z ensures z in o <==> z in base {
      assert Present(base, m, Pos(base, z));
    }
    forall x, y | x in Elements(o) && y in Elements(o) && x in o && y in o
      ensures Above(o, x, y) <==> Above(base, x, y)
    {
      OnlyAbove(m, Elements(base), x, y);
      Ascends(base, m, Pos(base, x), Pos(base, y));
      Ascends(base, m, Pos(base, y), Pos(base, x));
    }
    assert Elements(o) == Elements(base);
    OrderDetermines(o, base);
  }

  lemma {:induction false} Ascends(base: seq<MKey>, m: seq<MKey>, i: nat, j: nat)
    requires forall l: nat :: Descends(base, m, l)
    requires i < |base| && j < |base|
    ensures i < j ==> Above(m, base[i], base[j])
    decreases j
  {
    if i < j {
      assert Descends(base, m, j - 1);
      Ascends(base, m, i, j - 1);
    }
  }

  lemma NextIsBelow(base: seq<MKey>, moved: set<MKey>, m: seq<MKey>, i: nat)
    requires Restorable(base, moved, m) && i + 1 < |base|
    requires forall l: nat :: Concerned(base, moved, l) ==> Settled(base, moved, m, l)
    ensures Descends(base, m, i)
  {
    if Concerned(base, moved, i) {
      assert LinkedAt(base, m, i);
    } else {
      UnmovedIsAbove(base, moved, m, i);
    }
  }

  lemma UnmovedIsAbove(base: seq<MKey>, moved: set<MKey>, m: seq<MKey>, i: nat)
    requires Restorable(base, moved, m) && i + 1 < |base| && base[i] !in moved
    requires forall l: nat :: Concerned(base, moved, l) ==> Settled(base, moved, m, l)
    ensures Descends(base, m, i)
  {
    var e := RunEnd(base, moved, i + 1);
    KnownKey(base, moved, m, i);
    KnownKey(base, moved, m, e);
    if base[e] !in moved {
      assert Above(base, base[i], base[e]);
      BackAlongRun(base, moved, m, i, e);
    } else {
      assert TailBelow(base, moved, m, base[i], i + 1);
    }
  }

  /** From the end of a settled run back to its start, nothing stands in between. */
  lemma {:induction false} BackAlongRun(base: seq<MKey>, moved: set<MKey>, m: seq<MKey>, i: nat, at: nat)
    requires Restorable(base, moved, m) && i + 1 < |base| && i + 1 <= at <= RunEnd(base, moved, i + 1)
    requires forall l: nat :: Concerned(base, moved, l) ==> Settled(base, moved, m, l)
    requires base[i] !in moved && Above(m, base[i], base[at])
    ensures Descends(base, m, i)
    decreases at
  {
    if at > i + 1 {
      RunOf(base, moved, i + 1, at - 1);
      assert Concerned(base, moved, at - 1);
      assert LinkedAt(base, m, at - 1);
      KnownKey(base, moved, m, i);
      KnownKey(base, moved, m, at - 1);
      PosApart(m, base[i], base[at - 1]);
      BackAlongRun(base, moved, m, i, at - 1);
    }
  }
}
