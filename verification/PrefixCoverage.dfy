/** CIDR prefixes as bit strings, and the folding index over them. An address of
    width W is a prefix of W bits; section 3.1 of RFC 4632. */
module PrefixCoverage {

  /** `width` is 32 or 128 in practice; nothing here depends on it. */
  datatype Prefix = Prefix(width: nat, bits: seq<bool>)

  predicate WellFormed(p: Prefix) {
    |p.bits| <= p.width
  }

  predicate IsAddress(a: Prefix) {
    |a.bits| == a.width
  }

  /** `q` lies inside `p`. */
  predicate Within(q: Prefix, p: Prefix) {
    q.width == p.width && p.bits <= q.bits
  }

  /** `q` has the same width and at least the bits of `p`. */
  lemma WithinIs(q: Prefix, p: Prefix)
    ensures Within(q, p) <==> q.width == p.width && |p.bits| <= |q.bits| && forall i :: 0 <= i < |p.bits| ==> q.bits[i] == p.bits[i]
  {
    if q.width == p.width && |p.bits| <= |q.bits| && forall i :: 0 <= i < |p.bits| ==> q.bits[i] == p.bits[i] {
      assert q.bits[..|p.bits|] == p.bits;
    }
  }

  predicate Overlap(p: Prefix, q: Prefix) {
    Within(p, q) || Within(q, p)
  }

  function Shortened(p: Prefix, n: nat): Prefix
    requires n <= |p.bits|
  {
    Prefix(p.width, p.bits[..n])
  }

  function Child(p: Prefix, bit: bool): Prefix {
    Prefix(p.width, p.bits + [bit])
  }

  function Parent(p: Prefix): Prefix
    requires |p.bits| > 0
  {
    Shortened(p, |p.bits| - 1)
  }

  /** Flips the last bit. */
  function Sibling(p: Prefix): Prefix
    requires |p.bits| > 0
  {
    Prefix(p.width, p.bits[|p.bits| - 1 := !p.bits[|p.bits| - 1]])
  }

  /** The address lies in the union of the prefixes. */
  ghost predicate Covered(ps: set<Prefix>, a: Prefix) {
    exists p :: p in ps && Within(a, p)
  }

  /** Every address of `p` lies in the union. */
  ghost predicate FullyCovered(ps: set<Prefix>, p: Prefix) {
    forall a :: IsAddress(a) && Within(a, p) ==> Covered(ps, a)
  }

  predicate Listed(entries: set<Prefix>, p: Prefix, n: nat) {
    n <= |p.bits| && Shortened(p, n) in entries
  }

  /** The prefix or one of its ancestors is an entry. */
  ghost predicate HasAncestor(entries: set<Prefix>, p: Prefix) {
    exists n: nat :: Listed(entries, p, n)
  }

  /** Two covered halves are recognised as a covered whole. */
  ghost predicate FoldedAt(entries: set<Prefix>, p: Prefix) {
    |p.bits| < p.width && HasAncestor(entries, Child(p, false)) && HasAncestor(entries, Child(p, true)) ==> HasAncestor(entries, p)
  }

  ghost predicate FoldedBut(entries: set<Prefix>, open: set<Prefix>) {
    forall p :: p !in open ==> FoldedAt(entries, p)
  }

  // ---------------------------------------------------------------- bit strings

  lemma AncestorIsWithin(entries: set<Prefix>, p: Prefix, e: Prefix)
    requires e in entries && Within(p, e)
    ensures HasAncestor(entries, p)
  {
    assert Shortened(p, |e.bits|) == e;
    assert Listed(entries, p, |e.bits|);
  }

  lemma AncestorOf(entries: set<Prefix>, p: Prefix) returns (e: Prefix)
    requires HasAncestor(entries, p)
    ensures e in entries && Within(p, e)
  {
    var n: nat :| Listed(entries, p, n);
    e := Shortened(p, n);
  }

  lemma ChildIsWithin(p: Prefix, bit: bool)
    ensures Within(Child(p, bit), p)
  {
  }

  lemma WithinTrans(a: Prefix, b: Prefix, c: Prefix)
    requires Within(a, b) && Within(b, c)
    ensures Within(a, c)
  {
    assert a.bits[..|c.bits|] == c.bits by { assert b.bits[..|c.bits|] == c.bits && a.bits[..|b.bits|] == b.bits; }
  }

  /** Whatever lies strictly inside a prefix lies in one of its halves. */
  lemma InOneHalf(q: Prefix, p: Prefix)
    requires Within(q, p) && |q.bits| > |p.bits|
    ensures Within(q, Child(p, q.bits[|p.bits|]))
  {
    assert q.bits[..|p.bits| + 1] == p.bits + [q.bits[|p.bits|]];
  }

  lemma HalvesMakeWhole(p: Prefix)
    requires |p.bits| > 0
    ensures Child(Parent(p), p.bits[|p.bits| - 1]) == p && Child(Parent(p), !p.bits[|p.bits| - 1]) == Sibling(p)
    ensures Within(p, Parent(p)) && Within(Sibling(p), Parent(p)) && Parent(Sibling(p)) == Parent(p)
  {
    assert p.bits == p.bits[..|p.bits| - 1] + [p.bits[|p.bits| - 1]];
  }

  /** Two prefixes with a common member are nested. */
  lemma CommonMemberNests(a: Prefix, p: Prefix, q: Prefix)
    requires Within(a, p) && Within(a, q)
    ensures |p.bits| <= |q.bits| ==> Within(q, p)
  {
    if |p.bits| <= |q.bits| {
      assert q.bits == a.bits[..|q.bits|];
      assert q.bits[..|p.bits|] == a.bits[..|p.bits|] == p.bits;
    }
  }

  /** Looking at ancestors alone decides coverage of all addresses. */
  lemma {:induction false} AncestorsDecide(entries: set<Prefix>, p: Prefix)
    requires FoldedBut(entries, {}) && WellFormed(p)
    ensures HasAncestor(entries, p) <==> FullyCovered(entries, p)
    decreases p.width - |p.bits|
  {
    if HasAncestor(entries, p) {
      var e := AncestorOf(entries, p);
      forall a | IsAddress(a) && Within(a, p) ensures Covered(entries, a) {
        WithinTrans(a, p, e);
      }
    }
    if FullyCovered(entries, p) {
      if |p.bits| == p.width {
        assert IsAddress(p) && Within(p, p);
        var e :| e in entries && Within(p, e);
        AncestorIsWithin(entries, p, e);
      } else {
        HalfIsCovered(entries, p, false);
        HalfIsCovered(entries, p, true);
        AncestorsDecide(entries, Child(p, false));
        AncestorsDecide(entries, Child(p, true));
        assert FoldedAt(entries, p);
      }
    }
  }

  lemma HalfIsCovered(entries: set<Prefix>, p: Prefix, bit: bool)
    requires FullyCovered(entries, p)
    ensures FullyCovered(entries, Child(p, bit))
  {
    forall a | IsAddress(a) && Within(a, Child(p, bit)) ensures Covered(entries, a) {
      ChildIsWithin(p, bit);
      WithinTrans(a, Child(p, bit), p);
    }
  }

  // ---------------------------------------------------------------- folding

  /** The index while `cur` has just been entered: it has no other ancestor, and
      only its parent may be covered without being recognised. */
  ghost predicate Folding(entries: set<Prefix>, cur: Prefix) {
    && cur in entries
    && (forall n: nat :: n < |cur.bits| ==> !Listed(entries, cur, n))
    && FoldedBut(entries, if |cur.bits| > 0 then {Parent(cur)} else {})
  }

  lemma EnteredIsFolding(entries: set<Prefix>, p: Prefix)
    requires FoldedBut(entries, {}) && !HasAncestor(entries, p)
    ensures Folding(entries + {p}, p)
  {
    var more := entries + {p};
    forall n: nat | n < |p.bits| ensures !Listed(more, p, n) {
      assert !Listed(entries, p, n);
      assert |Shortened(p, n).bits| == n;
    }
    forall q | q !in (if |p.bits| > 0 then {Parent(p)} else {}) ensures FoldedAt(more, q) {
      if |q.bits| < q.width && HasAncestor(more, Child(q, false)) && HasAncestor(more, Child(q, true)) {
        EntryAddsOnlyInside(entries, p, q);
      }
    }
  }

  lemma EntryAddsOnlyInside(entries: set<Prefix>, p: Prefix, q: Prefix)
    requires FoldedBut(entries, {}) && (|p.bits| > 0 ==> q != Parent(p))
    requires HasAncestor(entries + {p}, Child(q, false)) && HasAncestor(entries + {p}, Child(q, true)) && |q.bits| < q.width
    ensures HasAncestor(entries + {p}, q)
  {
    var more := entries + {p};
    if Within(q, p) {
      AncestorIsWithin(more, q, p);
    } else {
      forall bit: bool ensures HasAncestor(entries, Child(q, bit)) {
        var e := AncestorOf(more, Child(q, bit));
        if e == p { HalfOrInside(p, q, bit); }
        AncestorIsWithin(entries, Child(q, bit), e);
      }
      assert FoldedAt(entries, q);
      var e := AncestorOf(entries, q);
      AncestorIsWithin(more, q, e);
    }
  }

  lemma HalfOrInside(p: Prefix, q: Prefix, bit: bool)
    requires Within(Child(q, bit), p)
    ensures Within(q, p) || (|p.bits| > 0 && q == Parent(p))
  {
    if |p.bits| == |q.bits| + 1 {
      assert p.bits == q.bits + [bit];
      assert p.bits[..|p.bits| - 1] == q.bits;
    } else {
      assert q.bits[..|p.bits|] == (q.bits + [bit])[..|p.bits|];
    }
  }

  /** No sibling entry: the parent is not covered after all. */
  lemma LonelyIsFolded(entries: set<Prefix>, cur: Prefix)
    requires Folding(entries, cur) && (|cur.bits| > 0 ==> Sibling(cur) !in entries)
    ensures FoldedBut(entries, {})
  {
    forall q ensures FoldedAt(entries, q) {
      if |cur.bits| > 0 && q == Parent(cur) {
        HalvesMakeWhole(cur);
        if HasAncestor(entries, Sibling(cur)) { SiblingsShareAncestors(entries, cur); }
      }
    }
  }

  lemma SiblingsShareAncestors(entries: set<Prefix>, cur: Prefix)
    requires |cur.bits| > 0 && HasAncestor(entries, Sibling(cur))
    ensures Sibling(cur) in entries || exists n: nat :: n < |cur.bits| && Listed(entries, cur, n)
  {
    var n: nat :| Listed(entries, Sibling(cur), n);
    if n < |cur.bits| {
      assert Shortened(Sibling(cur), n) == Shortened(cur, n);
      assert Listed(entries, cur, n);
    } else {
      assert Shortened(Sibling(cur), n) == Sibling(cur);
    }
  }

  /** Replacing two siblings by their parent. */
  function Merged(entries: set<Prefix>, cur: Prefix): set<Prefix>
    requires |cur.bits| > 0
  {
    entries - {cur} - {Sibling(cur)} + {Parent(cur)}
  }

  lemma MergeKeepsUnion(entries: set<Prefix>, cur: Prefix, a: Prefix)
    requires cur in entries && |cur.bits| > 0 && Sibling(cur) in entries && WellFormed(cur) && IsAddress(a)
    ensures Covered(Merged(entries, cur), a) <==> Covered(entries, a)
  {
    var more := Merged(entries, cur);
    HalvesMakeWhole(cur);
    if Covered(entries, a) {
      var e :| e in entries && Within(a, e);
      if e == cur || e == Sibling(cur) {
        WithinTrans(a, e, Parent(cur));
        assert Parent(cur) in more;
      } else {
        assert e in more;
      }
    }
    if Covered(more, a) {
      var e :| e in more && Within(a, e);
      if e == Parent(cur) {
        InOneHalf(a, e);
        var bit := a.bits[|e.bits|];
        assert Child(e, bit) in entries;
      } else {
        assert e in entries;
      }
    }
  }

  lemma MergeKeepsFolding(entries: set<Prefix>, cur: Prefix)
    requires Folding(entries, cur) && |cur.bits| > 0 && Sibling(cur) in entries
    ensures Folding(Merged(entries, cur), Parent(cur))
  {
    var more, up := Merged(entries, cur), Parent(cur);
    HalvesMakeWhole(cur);
    forall n: nat | n < |up.bits| ensures !Listed(more, up, n) {
      assert Shortened(up, n) == Shortened(cur, n);
      assert !Listed(entries, cur, n);
      assert |Shortened(up, n).bits| == n;
    }
    forall q | q !in (if |up.bits| > 0 then {Parent(up)} else {}) ensures FoldedAt(more, q) {
      if |q.bits| < q.width && HasAncestor(more, Child(q, false)) && HasAncestor(more, Child(q, true)) {
        MergedIsFoldedAt(entries, cur, q);
      }
    }
  }

  lemma MergedHasAncestor(entries: set<Prefix>, cur: Prefix, q: Prefix)
    requires |cur.bits| > 0 && HasAncestor(entries, q)
    ensures HasAncestor(Merged(entries, cur), q)
  {
    var e := AncestorOf(entries, q);
    HalvesMakeWhole(cur);
    if e == cur || e == Sibling(cur) {
      WithinTrans(q, e, Parent(cur));
      AncestorIsWithin(Merged(entries, cur), q, Parent(cur));
    } else {
      AncestorIsWithin(Merged(entries, cur), q, e);
    }
  }

  lemma MergedIsFoldedAt(entries: set<Prefix>, cur: Prefix, q: Prefix)
    requires Folding(entries, cur) && |cur.bits| > 0 && Sibling(cur) in entries
    requires |Parent(cur).bits| > 0 ==> q != Parent(Parent(cur))
    requires |q.bits| < q.width && HasAncestor(Merged(entries, cur), Child(q, false)) && HasAncestor(Merged(entries, cur), Child(q, true))
    ensures HasAncestor(Merged(entries, cur), q)
  {
    var more, up := Merged(entries, cur), Parent(cur);
    if Within(q, up) {
      AncestorIsWithin(more, q, up);
    } else {
      forall bit: bool ensures HasAncestor(entries, Child(q, bit)) {
        var e := AncestorOf(more, Child(q, bit));
        if e == up { HalfOrInside(up, q, bit); }
        AncestorIsWithin(entries, Child(q, bit), e);
      }
      assert q != up;
      assert FoldedAt(entries, q);
      MergedHasAncestor(entries, cur, q);
    }
  }

  // ---------------------------------------------------------------- the index

  ghost predicate SameUnion(entries: set<Prefix>, added: set<Prefix>, a: Prefix) {
    IsAddress(a) ==> (Covered(entries, a) <==> Covered(added, a))
  }

  class Coverage {
    var entries: set<Prefix>
    /** Everything that was ever added. */
    ghost var added: set<Prefix>

    ghost predicate Valid()
      reads this
    {
      FoldedBut(entries, {}) && forall a :: SameUnion(entries, added, a)
    }

    constructor ()
      ensures Valid() && added == {}
    {
      entries, added := {}, {};
    }

    /** Whether the union of everything added contains every address of `p`. */
    method Contains(p: Prefix) returns (contained: bool)
      requires Valid() && WellFormed(p)
      ensures contained <==> FullyCovered(added, p)
    {
      contained := false;
      var n := |p.bits| + 1;
      while n > 0 && !contained
        invariant 0 <= n <= |p.bits| + 1
        invariant contained ==> HasAncestor(entries, p)
        invariant !contained ==> forall l :: n <= l ==> !Listed(entries, p, l)
      {
        n := n - 1;
        if Shortened(p, n) in entries {
          contained := true;
          assert Listed(entries, p, n);
        }
      }
      AncestorsDecide(entries, p);
      SameUnions(entries, added, p);
    }

    method Add(p: Prefix)
      requires Valid() && WellFormed(p)
      modifies this
      ensures Valid() && added == old(added) + {p}
    {
      var contained := Contains(p);
      ghost var was := added;
      added := added + {p};
      if contained {
        forall a ensures SameUnion(entries, added, a) {
          assert SameUnion(entries, was, a);
          CoveredAlready(entries, was, p, a);
        }
      } else {
        assert !HasAncestor(entries, p) by {
          AncestorsDecide(entries, p);
          SameUnions(entries, was, p);
        }
        EnteredIsFolding(entries, p);
        ghost var e0 := entries;
        entries := entries + {p};
        forall a ensures SameUnion(entries, added, a) {
          assert SameUnion(e0, was, a);
          CoveredMore(e0, was, p, a);
        }
        var cur, open := p, true;
        while open && |cur.bits| > 0
          invariant WellFormed(cur) && added == was + {p} && forall a :: SameUnion(entries, added, a)
          invariant open ==> Folding(entries, cur)
          invariant !open ==> FoldedBut(entries, {})
          decreases |cur.bits|, open
        {
          if Sibling(cur) !in entries {
            LonelyIsFolded(entries, cur);
            open := false;
          } else {
            ghost var e := entries;
            entries := Merged(entries, cur);
            forall a ensures SameUnion(entries, added, a) {
              assert SameUnion(e, added, a);
              StillSame(e, entries, added, cur, a);
            }
            MergeKeepsFolding(e, cur);
            cur := Parent(cur);
          }
        }
        if open { LonelyIsFolded(entries, cur); }
      }
    }
  }

  lemma SameUnions(entries: set<Prefix>, added: set<Prefix>, p: Prefix)
    requires forall a :: SameUnion(entries, added, a)
    ensures FullyCovered(entries, p) <==> FullyCovered(added, p)
  {
    forall a | IsAddress(a) && Within(a, p) ensures Covered(entries, a) <==> Covered(added, a) {
      assert SameUnion(entries, added, a);
    }
  }

  lemma CoveredMore(entries: set<Prefix>, added: set<Prefix>, p: Prefix, a: Prefix)
    requires SameUnion(entries, added, a)
    ensures SameUnion(entries + {p}, added + {p}, a)
  {
    CoveredOneMore(entries, p, a);
    CoveredOneMore(added, p, a);
  }

  lemma CoveredOneMore(ps: set<Prefix>, p: Prefix, a: Prefix)
    ensures Covered(ps + {p}, a) <==> Covered(ps, a) || Within(a, p)
  {
    if Covered(ps, a) {
      var e :| e in ps && Within(a, e);
      assert e in ps + {p};
    }
    if Within(a, p) { assert p in ps + {p}; }
  }

  lemma CoveredAlready(entries: set<Prefix>, added: set<Prefix>, p: Prefix, a: Prefix)
    requires FullyCovered(added, p) && SameUnion(entries, added, a)
    ensures SameUnion(entries, added + {p}, a)
  {
    CoveredOneMore(added, p, a);
  }

  lemma StillSame(before: set<Prefix>, after: set<Prefix>, added: set<Prefix>, cur: Prefix, a: Prefix)
    requires cur in before && |cur.bits| > 0 && Sibling(cur) in before && WellFormed(cur) && after == Merged(before, cur)
    requires SameUnion(before, added, a)
    ensures SameUnion(after, added, a)
  {
    if IsAddress(a) { MergeKeepsUnion(before, cur, a); }
  }
}
