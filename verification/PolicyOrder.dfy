/** Moving policies about in an ordered table: what one move changes, why the
    repositioning loop of a rollback converges, and why creating a chain of
    policies bottom-up leaves it contiguous. */
module PolicyOrder {
  import opened PolicyTables

  predicate Apart(s: seq<MKey>, i: nat, j: nat) {
    i < j < |s| ==> s[i] != s[j]
  }

  /** No key occurs twice. */
  ghost predicate Distinct(s: seq<MKey>) {
    forall i, j :: Apart(s, i, j)
  }

  function Elements(s: seq<MKey>): set<MKey> {
    set k | k in s
  }

  lemma InElements(s: seq<MKey>)
    ensures forall k :: k in Elements(s) <==> k in s
  {
  }

  /** The index of `k`, or the length of `s` when `k` is not there. */
  function Pos(s: seq<MKey>, k: MKey): (i: nat)
    ensures i <= |s|
    ensures k in s <==> i < |s|
    ensures i < |s| ==> s[i] == k
  {
    if s == [] then 0 else if s[0] == k then 0 else 1 + Pos(s[1..], k)
  }

  function Without(s: seq<MKey>, k: MKey): seq<MKey> {
    if k in s then s[..Pos(s, k)] + s[Pos(s, k) + 1..] else s
  }

  function Inserted(s: seq<MKey>, at: nat, k: MKey): seq<MKey>
    requires at <= |s|
  {
    s[..at] + [k] + s[at..]
  }

  /** The device's move operations. A reference that is not in the table changes nothing. */
  function MovedBefore(s: seq<MKey>, k: MKey, succ: MKey): seq<MKey> {
    if k in s && succ in s && k != succ then
      var rest := Without(s, k);
      Inserted(rest, Pos(rest, succ), k)
    else s
  }

  function MovedAfter(s: seq<MKey>, k: MKey, pred: MKey): seq<MKey> {
    if k in s && pred in s && k != pred then
      var rest := Without(s, k);
      if Pos(rest, pred) < |rest| then Inserted(rest, Pos(rest, pred) + 1, k) else s
    else s
  }

  // ---------------------------------------------------------------- positions

  lemma PosIs(s: seq<MKey>, i: nat)
    requires Distinct(s) && i < |s|
    ensures Pos(s, s[i]) == i
  {
    assert Apart(s, Pos(s, s[i]), i) && Apart(s, i, Pos(s, s[i]));
  }

  lemma WithoutFacts(s: seq<MKey>, k: MKey)
    requires Distinct(s) && k in s
    ensures Distinct(Without(s, k)) && |Without(s, k)| == |s| - 1
    ensures forall z :: z in Without(s, k) <==> z in s && z != k
  {
    hide Pos;
    var w, c := Without(s, k), Pos(s, k);
    assert forall i :: 0 <= i < |w| ==> w[i] == if i < c then s[i] else s[i + 1];
    forall i: nat, j: nat ensures Apart(w, i, j) {
      if i < j < |w| {
        assert Apart(s, if i < c then i else i + 1, if j < c then j else j + 1);
      }
    }
    forall z ensures z in w <==> z in s && z != k {
      WithoutMembers(s, k, z);
    }
  }

  lemma WithoutMembers(s: seq<MKey>, k: MKey, z: MKey)
    requires Distinct(s) && k in s
    ensures z in Without(s, k) <==> z in s && z != k
  {
    var c := Pos(s, k);
    assert s == s[..c] + [k] + s[c + 1..];
    AbsentAround(s, c);
  }

  lemma AbsentAround(s: seq<MKey>, c: nat)
    requires Distinct(s) && c < |s|
    ensures s[c] !in s[..c] && s[c] !in s[c + 1..]
  {
    forall i | 0 <= i < c ensures s[i] != s[c] { assert Apart(s, i, c); }
    forall i | c < i < |s| ensures s[i] != s[c] { assert Apart(s, c, i); }
  }

  lemma WithoutAt(s: seq<MKey>, k: MKey, z: MKey)
    requires Distinct(s) && k in s && z in s && z != k
    ensures Pos(Without(s, k), z) == Pos(s, z) - (if Pos(s, z) > Pos(s, k) then 1 else 0)
  {
    var w, c := Without(s, k), Pos(s, k);
    WithoutFacts(s, k);
    var i := if Pos(s, z) > c then Pos(s, z) - 1 else Pos(s, z);
    assert w[i] == z;
    PosIs(w, i);
  }

  lemma InsertedFacts(s: seq<MKey>, at: nat, k: MKey)
    requires Distinct(s) && at <= |s| && k !in s
    ensures Distinct(Inserted(s, at, k)) && |Inserted(s, at, k)| == |s| + 1
    ensures forall z :: z in Inserted(s, at, k) <==> z in s || z == k
    ensures Pos(Inserted(s, at, k), k) == at
  {
    hide Pos;
    var w := Inserted(s, at, k);
    assert forall i :: 0 <= i < |w| ==> w[i] == if i < at then s[i] else if i == at then k else s[i - 1];
    forall i: nat, j: nat ensures Apart(w, i, j) {
      if i < j < |w| && i != at && j != at {
        assert Apart(s, if i < at then i else i - 1, if j < at then j else j - 1);
      }
    }
    assert w[at] == k;
    PosIs(w, at);
    forall z | z in s ensures z in w {
      assert w[if Pos(s, z) >= at then Pos(s, z) + 1 else Pos(s, z)] == z;
    }
  }

  lemma InsertedAt(s: seq<MKey>, at: nat, k: MKey, z: MKey)
    requires Distinct(s) && at <= |s| && k !in s && z in s
    ensures Pos(Inserted(s, at, k), z) == Pos(s, z) + (if Pos(s, z) >= at then 1 else 0)
  {
    var w := Inserted(s, at, k);
    InsertedFacts(s, at, k);
    var i := if Pos(s, z) >= at then Pos(s, z) + 1 else Pos(s, z);
    assert w[i] == z;
    PosIs(w, i);
  }

  /** `x` stands above `y`. */
  predicate Above(s: seq<MKey>, x: MKey, y: MKey) {
    Pos(s, x) < Pos(s, y)
  }

  /** `y` is the immediate successor of `x`. */
  predicate Linked(s: seq<MKey>, x: MKey, y: MKey) {
    x in s && y in s && Pos(s, x) + 1 == Pos(s, y)
  }

  ghost predicate SameOrder(s: seq<MKey>, t: seq<MKey>, keep: set<MKey>) {
    forall x, y :: x in keep && y in keep && x in s && y in s ==> (Above(s, x, y) <==> Above(t, x, y))
  }

  lemma MovedBeforeKeeps(s: seq<MKey>, k: MKey, succ: MKey)
    requires Distinct(s)
    ensures Distinct(MovedBefore(s, k, succ)) && |MovedBefore(s, k, succ)| == |s|
    ensures forall z :: z in MovedBefore(s, k, succ) <==> z in s
  {
    if k in s && succ in s && k != succ {
      WithoutFacts(s, k);
      InsertedFacts(Without(s, k), Pos(Without(s, k), succ), k);
    }
  }

  lemma MovedAfterKeeps(s: seq<MKey>, k: MKey, pred: MKey)
    requires Distinct(s)
    ensures Distinct(MovedAfter(s, k, pred)) && |MovedAfter(s, k, pred)| == |s|
    ensures forall z :: z in MovedAfter(s, k, pred) <==> z in s
  {
    if k in s && pred in s && k != pred {
      WithoutFacts(s, k);
      InsertedFacts(Without(s, k), Pos(Without(s, k), pred) + 1, k);
    }
  }

  /** Where `z` stands after `k` was moved before `succ`. */
  lemma MovedBeforeAt(s: seq<MKey>, k: MKey, succ: MKey, z: MKey)
    requires Distinct(s) && k in s && succ in s && k != succ && z in s
    ensures var m, c, t, i := MovedBefore(s, k, succ), Pos(s, k), Pos(s, succ), Pos(s, z);
      Pos(m, z) == if z == k then (if t > c then t - 1 else t)
                   else if c < t then (if c < i < t then i - 1 else i)
                   else (if t <= i < c then i + 1 else i)
  {
    hide Pos, Without, Inserted;
    var rest := Without(s, k);
    WithoutFacts(s, k);
    WithoutAt(s, k, succ);
    InsertedFacts(rest, Pos(rest, succ), k);
    if z != k {
      PosApart(s, z, k);
      WithoutAt(s, k, z);
      InsertedAt(rest, Pos(rest, succ), k, z);
    }
  }

  /** Where `z` stands after `k` was moved after `pred`. */
  lemma MovedAfterAt(s: seq<MKey>, k: MKey, pred: MKey, z: MKey)
    requires Distinct(s) && k in s && pred in s && k != pred && z in s
    ensures var m, c, t, i := MovedAfter(s, k, pred), Pos(s, k), Pos(s, pred), Pos(s, z);
      Pos(m, z) == if z == k then (if t > c then t else t + 1)
                   else if c < t then (if c < i <= t then i - 1 else i)
                   else (if t < i < c then i + 1 else i)
  {
    hide Pos, Without, Inserted;
    var rest := Without(s, k);
    WithoutFacts(s, k);
    WithoutAt(s, k, pred);
    InsertedFacts(rest, Pos(rest, pred) + 1, k);
    if z != k {
      PosApart(s, z, k);
      WithoutAt(s, k, z);
      InsertedAt(rest, Pos(rest, pred) + 1, k, z);
    }
  }

  /** A move changes the order of the moved key alone. */
  lemma MovedBeforeKeepsOthers(s: seq<MKey>, k: MKey, succ: MKey, keep: set<MKey>)
    requires Distinct(s) && k !in keep
    ensures SameOrder(s, MovedBefore(s, k, succ), keep)
  {
    if k in s && succ in s && k != succ {
      forall x, y | x in keep && y in keep && x in s && y in s
        ensures Above(s, x, y) <==> Above(MovedBefore(s, k, succ), x, y)
      {
        MovedBeforeKeepsAbove(s, k, succ, x, y);
      }
    }
  }

  lemma MovedBeforeKeepsAbove(s: seq<MKey>, k: MKey, succ: MKey, x: MKey, y: MKey)
    requires Distinct(s) && k in s && succ in s && k != succ && x in s && y in s && x != k && y != k
    ensures Above(s, x, y) <==> Above(MovedBefore(s, k, succ), x, y)
  {
    hide MovedBefore, Pos;
    MovedBeforeAt(s, k, succ, x);
    MovedBeforeAt(s, k, succ, y);
    PosApart(s, x, k);
    PosApart(s, y, k);
  }

  lemma MovedAfterKeepsOthers(s: seq<MKey>, k: MKey, pred: MKey, keep: set<MKey>)
    requires Distinct(s) && k !in keep
    ensures SameOrder(s, MovedAfter(s, k, pred), keep)
  {
    if k in s && pred in s && k != pred {
      forall x, y | x in keep && y in keep && x in s && y in s
        ensures Above(s, x, y) <==> Above(MovedAfter(s, k, pred), x, y)
      {
        MovedAfterKeepsAbove(s, k, pred, x, y);
      }
    }
  }

  lemma MovedAfterKeepsAbove(s: seq<MKey>, k: MKey, pred: MKey, x: MKey, y: MKey)
    requires Distinct(s) && k in s && pred in s && k != pred && x in s && y in s && x != k && y != k
    ensures Above(s, x, y) <==> Above(MovedAfter(s, k, pred), x, y)
  {
    hide MovedAfter, Pos;
    MovedAfterAt(s, k, pred, x);
    MovedAfterAt(s, k, pred, y);
    PosApart(s, x, k);
    PosApart(s, y, k);
  }

  lemma SamePositionsSameOrder(a: seq<MKey>, b: seq<MKey>)
    requires Distinct(a) && |a| == |b|
    requires forall z :: z in a ==> z in b && Pos(a, z) == Pos(b, z)
    ensures a == b
  {
    forall i | 0 <= i < |a| ensures a[i] == b[i] {
      PosIs(a, i);
      assert a[i] in a;
    }
  }

  /** Moving a policy to where it already stands changes nothing. */
  lemma MoveToOwnPlace(s: seq<MKey>, k: MKey, succ: MKey)
    requires Distinct(s) && Linked(s, k, succ)
    ensures MovedBefore(s, k, succ) == s && MovedAfter(s, succ, k) == s
  {
    MovedBeforeKeeps(s, k, succ);
    MovedAfterKeeps(s, succ, k);
    forall z | z in s
      ensures Pos(s, z) == Pos(MovedBefore(s, k, succ), z) == Pos(MovedAfter(s, succ, k), z)
    {
      MovedBeforeAt(s, k, succ, z);
      MovedAfterAt(s, succ, k, z);
    }
    SamePositionsSameOrder(s, MovedBefore(s, k, succ));
    SamePositionsSameOrder(s, MovedAfter(s, succ, k));
  }

  lemma MovedBelow(s: seq<MKey>, k: MKey, succ: MKey, a: MKey)
    requires Distinct(s) && k in s && succ in s && a in s && k != succ && a != k && Above(s, a, succ)
    ensures Above(MovedBefore(s, k, succ), a, k)
  {
    MovedBeforeAt(s, k, succ, a);
    MovedBeforeAt(s, k, succ, k);
  }

  lemma MovedAfterBelow(s: seq<MKey>, k: MKey, pred: MKey, a: MKey)
    requires Distinct(s) && k in s && pred in s && a in s && k != pred && a != k
    requires a == pred || Above(s, a, pred)
    ensures Above(MovedAfter(s, k, pred), a, k)
  {
    MovedAfterAt(s, k, pred, a);
    MovedAfterAt(s, k, pred, k);
  }

  lemma MovedBeforeKeepsLink(s: seq<MKey>, k: MKey, succ: MKey, x: MKey, y: MKey)
    requires Distinct(s) && k in s && succ in s && k != succ
    requires Linked(s, x, y) && x != k && y != k && y != succ
    ensures Linked(MovedBefore(s, k, succ), x, y)
  {
    MovedBeforeKeeps(s, k, succ);
    MovedBeforeAt(s, k, succ, x);
    MovedBeforeAt(s, k, succ, y);
    PosApart(s, y, succ);
    PosApart(s, x, k);
    PosApart(s, y, k);
  }

  lemma MovedAfterKeepsLink(s: seq<MKey>, k: MKey, pred: MKey, x: MKey, y: MKey)
    requires Distinct(s) && k in s && pred in s && k != pred
    requires Linked(s, x, y) && x != k && y != k && x != pred
    ensures Linked(MovedAfter(s, k, pred), x, y)
  {
    MovedAfterKeeps(s, k, pred);
    MovedAfterAt(s, k, pred, x);
    MovedAfterAt(s, k, pred, y);
    PosApart(s, x, pred);
    PosApart(s, x, k);
    PosApart(s, y, k);
  }

  lemma PosApart(s: seq<MKey>, x: MKey, y: MKey)
    requires x in s && y in s && x != y
    ensures Pos(s, x) != Pos(s, y)
  {
  }

  lemma MovedBeforeLinks(s: seq<MKey>, k: MKey, succ: MKey)
    requires Distinct(s) && k in s && succ in s && k != succ
    ensures Linked(MovedBefore(s, k, succ), k, succ)
  {
    MovedBeforeKeeps(s, k, succ);
    MovedBeforeAt(s, k, succ, k);
    MovedBeforeAt(s, k, succ, succ);
  }

  lemma MovedAfterLinks(s: seq<MKey>, k: MKey, pred: MKey)
    requires Distinct(s) && k in s && pred in s && k != pred
    ensures Linked(MovedAfter(s, k, pred), pred, k)
  {
    MovedAfterKeeps(s, k, pred);
    MovedAfterAt(s, k, pred, k);
    MovedAfterAt(s, k, pred, pred);
  }

  // ---------------------------------------------------------------- subsequences

  lemma TailDistinct(s: seq<MKey>)
    requires Distinct(s) && s != []
    ensures Distinct(s[1..]) && s[0] !in s[1..]
    ensures Elements(s[1..]) == Elements(s) - {s[0]}
    ensures forall z :: z in s <==> z == s[0] || z in s[1..]
  {
    forall i: nat, j: nat ensures Apart(s[1..], i, j) {
      assert Apart(s, i + 1, j + 1);
    }
    assert Apart(s, 0, Pos(s[1..], s[0]) + 1);
    assert forall z :: z in s <==> z == s[0] || z in s[1..];
  }

  lemma ConsDistinct(k: MKey, s: seq<MKey>)
    requires Distinct(s) && k !in s
    ensures Distinct([k] + s) && ([k] + s)[1..] == s
  {
    forall i: nat, j: nat ensures Apart([k] + s, i, j) {
      if 0 < i < j { assert Apart(s, i - 1, j - 1); }
    }
  }

  lemma {:induction false} OnlyFacts(s: seq<MKey>, keep: set<MKey>)
    requires Distinct(s)
    ensures Distinct(Only(s, keep))
    ensures forall z :: z in Only(s, keep) <==> z in s && z in keep
  {
    if s != [] {
      TailDistinct(s);
      OnlyFacts(s[1..], keep);
      if s[0] in keep {
        ConsDistinct(s[0], Only(s[1..], keep));
        assert Only(s, keep) == [s[0]] + Only(s[1..], keep);
      } else {
        assert Only(s, keep) == Only(s[1..], keep);
      }
    }
  }

  lemma {:induction false} OnlyAbove(s: seq<MKey>, keep: set<MKey>, x: MKey, y: MKey)
    requires Distinct(s) && x in keep && y in keep && x in s && y in s
    ensures Above(Only(s, keep), x, y) <==> Above(s, x, y)
  {
    TailDistinct(s);
    var tail := Only(s[1..], keep);
    OnlyFacts(s[1..], keep);
    if s[0] in keep {
      ConsDistinct(s[0], tail);
      assert Only(s, keep) == [s[0]] + tail;
    } else {
      assert Only(s, keep) == tail;
    }
    if x != s[0] && y != s[0] {
      OnlyAbove(s[1..], keep, x, y);
    }
  }

  lemma OnlySameOrder(s: seq<MKey>, keep: set<MKey>)
    requires Distinct(s)
    ensures SameOrder(s, Only(s, keep), keep) && SameOrder(Only(s, keep), s, keep)
  {
    OnlyFacts(s, keep);
    forall x, y | x in keep && y in keep && x in s && y in s
      ensures Above(Only(s, keep), x, y) <==> Above(s, x, y)
    {
      OnlyAbove(s, keep, x, y);
    }
  }

  lemma NonEmptyHasElement(b: seq<MKey>)
    ensures b != [] ==> Elements(b) != {}
  {
    if b != [] { assert b[0] in Elements(b); }
  }

  lemma HeadIsAbove(a: seq<MKey>, x: MKey)
    requires a != [] && x in a
    ensures x != a[0] ==> Above(a, a[0], x)
  {
  }

  lemma SameOrderTrans(s: seq<MKey>, t: seq<MKey>, u: seq<MKey>, keep: set<MKey>)
    requires SameOrder(s, t, keep) && SameOrder(s, u, keep)
    requires forall z :: z in keep && z in t ==> z in s
    ensures SameOrder(t, u, keep)
  {
    forall x, y | x in keep && y in keep && x in t && y in t
      ensures Above(t, x, y) <==> Above(u, x, y)
    {
      assert Above(s, x, y) <==> Above(t, x, y);
    }
  }

  /** A distinct sequence is determined by its elements and their order. */
  lemma {:induction false} OrderDetermines(a: seq<MKey>, b: seq<MKey>)
    requires Distinct(a) && Distinct(b)
    requires Elements(a) == Elements(b)
    requires SameOrder(a, b, Elements(a))
    ensures a == b
  {
    NonEmptyHasElement(a);
    NonEmptyHasElement(b);
    if a != [] {
      assert a[0] in Elements(b) && b[0] in Elements(a);
      HeadIsAbove(a, b[0]);
      HeadIsAbove(b, a[0]);
      var a', b' := a[1..], b[1..];
      TailDistinct(a);
      TailDistinct(b);
      forall x, y | x in Elements(a') && y in Elements(a') && x in a' && y in a'
        ensures Above(a', x, y) <==> Above(b', x, y)
      {
        assert x in Elements(a) && y in Elements(a);
        assert Above(a, x, y) <==> Above(b, x, y);
      }
      OrderDetermines(a', b');
      assert a == [a[0]] + a' && b == [b[0]] + b';
    }
  }

  /** Two orders restricted to the same keys agree when their relative orders do. */
  lemma OnlyAgrees(s: seq<MKey>, t: seq<MKey>, keep: set<MKey>)
    requires Distinct(s) && Distinct(t)
    requires forall z :: z in keep ==> (z in s <==> z in t)
    requires SameOrder(s, t, keep)
    ensures Only(s, keep) == Only(t, keep)
  {
    OnlyFacts(s, keep);
    OnlyFacts(t, keep);
    OnlySameOrder(s, keep);
    OnlySameOrder(t, keep);
    var a, b := Only(s, keep), Only(t, keep);
    forall x, y | x in Elements(a) && y in Elements(a) && x in a && y in a
      ensures Above(a, x, y) <==> Above(b, x, y)
    {
      assert Above(a, x, y) <==> Above(s, x, y);
      assert Above(s, x, y) <==> Above(t, x, y);
      assert Above(t, x, y) <==> Above(b, x, y);
    }
    OrderDetermines(a, b);
  }

  lemma {:induction false} OnlyAppend(s: seq<MKey>, k: MKey, keep: set<MKey>)
    ensures Only(s + [k], keep) == if k in keep then Only(s, keep) + [k] else Only(s, keep)
  {
    if s == [] {
      assert [] + [k] == [k] && [k][1..] == [];
    } else {
      OnlyAppend(s[1..], k, keep);
      assert (s + [k])[1..] == s[1..] + [k] && (s + [k])[0] == s[0];
      assert Only(s + [k], keep) == if s[0] in keep then [s[0]] + Only(s[1..] + [k], keep) else Only(s[1..] + [k], keep);
    }
  }

  lemma {:induction false} OnlyLinked(s: seq<MKey>, keep: set<MKey>, x: MKey, y: MKey)
    requires Distinct(s) && Linked(s, x, y) && x in keep && y in keep
    ensures Linked(Only(s, keep), x, y)
  {
    TailDistinct(s);
    var tail := Only(s[1..], keep);
    OnlyFacts(s[1..], keep);
    if s[0] == x {
      assert y == s[1] && s[1..][0] == y;
      assert tail[0] == y;
      assert Only(s, keep) == [x] + tail;
    } else {
      OnlyLinked(s[1..], keep, x, y);
      if s[0] in keep {
        ConsDistinct(s[0], tail);
        assert Only(s, keep) == [s[0]] + tail;
      } else {
        assert Only(s, keep) == tail;
      }
    }
  }
}
