/** Comparing lists item by item: when the order of the items matters. */
module JsonLists {
  import opened Jsons

  predicate SameItems(a: seq<Json>, b: seq<Json>) {
    multiset(a) == multiset(b)
  }

  /** Item by item, every wanted item is shown. */
  ghost predicate Aligned(wanted: seq<Json>, got: seq<Json>) {
    |wanted| == |got| && forall i :: 0 <= i < |wanted| ==> Same(wanted[i], got[i])
  }

  /** The candidates can be assigned to the wanted items one by one. */
  ghost predicate Assignable(wanted: seq<Json>, got: seq<Json>) {
    exists chosen :: SameItems(chosen, got) && Aligned(wanted, chosen)
  }

  /** Wanted items that share a candidate share all their candidates. */
  ghost predicate Classed(wanted: seq<Json>, got: seq<Json>) {
    forall a, b, c, d :: a in wanted && b in wanted && c in got && d in got && Same(a, c) && Same(b, c) && Same(b, d) ==> Same(a, d)
  }

  /** The comparison succeeds in whatever order both lists come. */
  ghost predicate InAnyOrder(wanted: seq<Json>, got: seq<Json>) {
    forall w, g :: SameItems(w, wanted) && SameItems(g, got) ==> AllMatched(w, g)
  }

  // ---------------------------------------------------------------- single steps

  function Dropped(s: seq<Json>, i: nat): seq<Json>
    requires i < |s|
  {
    s[..i] + s[i + 1..]
  }

  lemma DroppedItems(s: seq<Json>, i: nat)
    requires i < |s|
    ensures multiset(Dropped(s, i)) == multiset(s) - multiset{s[i]} && multiset(s) == multiset(Dropped(s, i)) + multiset{s[i]}
    ensures forall c :: c in Dropped(s, i) ==> c in s
  {
    assert s == s[..i] + [s[i]] + s[i + 1..];
  }

  lemma SameAsEver(s: seq<Json>)
    ensures SameItems(s, s)
  {
  }

  lemma SameItemsTurned(s: seq<Json>, t: seq<Json>, u: seq<Json>)
    requires SameItems(s, t) && SameItems(t, u)
    ensures SameItems(s, u) && SameItems(u, s)
  {
  }

  lemma WithHead(s: seq<Json>, t: seq<Json>, i: nat)
    requires i < |t| && SameItems(s, Dropped(t, i))
    ensures SameItems([t[i]] + s, t)
  {
    DroppedItems(t, i);
  }

  lemma WithoutHead(s: seq<Json>, t: seq<Json>, i: nat)
    requires i < |t| && s != [] && t[i] == s[0] && SameItems(s, t)
    ensures SameItems(s[1..], Dropped(t, i))
  {
    DroppedItems(t, i);
    assert s == [s[0]] + s[1..];
  }

  lemma WithoutBoth(s: seq<Json>, t: seq<Json>, j: nat, i: nat)
    requires j < |s| && i < |t| && t[i] == s[j] && SameItems(s, t)
    ensures SameItems(Dropped(s, j), Dropped(t, i))
  {
    DroppedItems(t, i);
    DroppedItems(s, j);
  }

  /** The item that `s[j]` gives way to: the first one. */
  function Shifted(s: seq<Json>, j: nat): seq<Json>
    requires j < |s|
  {
    if j == 0 then s[1..] else s[1..][j - 1 := s[0]]
  }

  lemma ShiftedItems(s: seq<Json>, j: nat)
    requires j < |s|
    ensures SameItems(Shifted(s, j), Dropped(s, j))
  {
    if j > 0 {
      var mid, tail := s[1..j], s[j + 1..];
      assert Shifted(s, j) == mid + [s[0]] + tail;
      assert s[..j] == [s[0]] + mid;
      assert Dropped(s, j) == [s[0]] + mid + tail;
    }
  }

  lemma AlignedHead(w: seq<Json>, g: seq<Json>, c: Json)
    requires w != [] && Same(w[0], c) && Aligned(w[1..], g)
    ensures Aligned(w, [c] + g)
  {
    hide Same;
    forall i | 0 <= i < |w| ensures Same(w[i], ([c] + g)[i]) {
      if i > 0 { assert Same(w[1..][i - 1], g[i - 1]); }
    }
  }

  lemma AlignedDropped(w: seq<Json>, g: seq<Json>, j: nat)
    requires Aligned(w, g) && j < |w|
    ensures Aligned(Dropped(w, j), Dropped(g, j))
  {
    hide Same;
  }

  lemma {:induction false} FirstMatchIs(wanted: Json, unused: seq<Json>)
    ensures var i := FirstMatch(wanted, unused);
      && (i < |unused| ==> Same(wanted, unused[i]))
      && forall j :: 0 <= j < i ==> !Same(wanted, unused[j])
  {
    hide Same;
    if unused != [] && !Same(wanted, unused[0]) {
      FirstMatchIs(wanted, unused[1..]);
      forall j | 0 <= j < FirstMatch(wanted, unused) ensures !Same(wanted, unused[j]) {
        if j > 0 { assert unused[j] == unused[1..][j - 1]; }
      }
    }
  }

  lemma MatchedStep(wanted: seq<Json>, unused: seq<Json>)
    requires wanted != []
    ensures var i := FirstMatch(wanted[0], unused);
      AllMatched(wanted, unused) <==> i < |unused| && AllMatched(wanted[1..], Dropped(unused, i))
  {
    hide Same;
  }

  lemma SameMembers(a: seq<Json>, b: seq<Json>)
    requires SameItems(a, b)
    ensures |a| == |b| && forall c :: c in a <==> c in b
  {
    assert |a| == |multiset(a)| == |multiset(b)| == |b|;
    forall c ensures c in a <==> c in b { assert c in multiset(a) <==> c in multiset(b); }
  }

  // ---------------------------------------------------------------- greedy and assigned

  /** Aligned beginnings are taken as they stand. */
  lemma {:induction false} AlignedAreTaken(w: seq<Json>, g: seq<Json>, more: seq<Json>, rest: seq<Json>)
    requires Aligned(w, g)
    ensures AllMatched(w + more, g + rest) <==> AllMatched(more, rest)
  {
    hide Same;
    if w == [] {
      assert w + more == more && g + rest == rest;
    } else {
      var wanted, unused := w + more, g + rest;
      assert FirstMatch(wanted[0], unused) == 0;
      MatchedStep(wanted, unused);
      assert wanted[1..] == w[1..] + more && Dropped(unused, 0) == g[1..] + rest;
      AlignedAreTaken(w[1..], g[1..], more, rest);
    }
  }

  /** A comparison that succeeds has found an assignment. */
  lemma {:induction false} MatchedIsAssigned(wanted: seq<Json>, got: seq<Json>)
    requires AllMatched(wanted, got) && |wanted| == |got|
    ensures Assignable(wanted, got)
  {
    hide Same, SameItems, Aligned, AllMatched, FirstMatch;
    if wanted == [] {
      SameAsEver(got);
      NothingAligned(wanted, got);
    } else {
      var i := FirstMatch(wanted[0], got);
      MatchedStep(wanted, got);
      FirstMatchIs(wanted[0], got);
      MatchedIsAssigned(wanted[1..], Dropped(got, i));
      var rest :| SameItems(rest, Dropped(got, i)) && Aligned(wanted[1..], rest);
      WithHead(rest, got, i);
      AlignedHead(wanted, rest, got[i]);
    }
  }

  lemma NothingAligned(wanted: seq<Json>, got: seq<Json>)
    requires wanted == got == []
    ensures Aligned(wanted, got)
  {
  }

  lemma {:induction false} AssignableInAnyOrder(w: seq<Json>, wanted: seq<Json>, got: seq<Json>)
    requires SameItems(w, wanted) && Assignable(wanted, got)
    ensures Assignable(w, got)
  {
    hide Same, SameItems, Dropped;
    var chosen :| SameItems(chosen, got) && Aligned(wanted, chosen);
    SameMembers(w, wanted);
    if w == [] {
      NothingAligned(w, chosen);
    } else {
      assert w[0] in wanted;
      var j :| 0 <= j < |wanted| && wanted[j] == w[0];
      WithoutHead(w, wanted, j);
      AlignedDropped(wanted, chosen, j);
      SameAsEver(Dropped(chosen, j));
      AssignableInAnyOrder(w[1..], Dropped(wanted, j), Dropped(chosen, j));
      var rest :| SameItems(rest, Dropped(chosen, j)) && Aligned(w[1..], rest);
      WithHead(rest, chosen, j);
      SameItemsTurned([chosen[j]] + rest, chosen, got);
      AlignedHead(w, rest, chosen[j]);
    }
  }

  /** When shared candidates are all shared, taking the first one never spoils an
      assignment. */
  lemma {:induction false} ClassedIsMatched(wanted: seq<Json>, got: seq<Json>)
    requires Classed(wanted, got) && Assignable(wanted, got)
    ensures AllMatched(wanted, got)
  {
    hide Same, SameItems, Dropped, Classed;
    if wanted != [] {
      var chosen :| SameItems(chosen, got) && Aligned(wanted, chosen);
      SameMembers(chosen, got);
      var i := FirstMatch(wanted[0], got);
      FirstMatchIs(wanted[0], got);
      assert chosen[0] in got;
      MatchedStep(wanted, got);
      TakenIsSpared(wanted, got, chosen, i);
      ClassedIsMatched(wanted[1..], Dropped(got, i));
    }
  }

  lemma ClassedRest(wanted: seq<Json>, got: seq<Json>, i: nat)
    requires Classed(wanted, got) && wanted != [] && i < |got|
    ensures Classed(wanted[1..], Dropped(got, i))
  {
    hide Same, Dropped;
    DroppedItems(got, i);
    assert forall c :: c in wanted[1..] ==> c in wanted;
  }

  lemma ShiftedAligned(wanted: seq<Json>, chosen: seq<Json>, j: nat)
    requires Aligned(wanted, chosen) && j < |wanted| && Same(wanted[j], chosen[0])
    ensures Aligned(wanted[1..], Shifted(chosen, j))
  {
    hide Same;
  }

  lemma TakenIsSpared(wanted: seq<Json>, got: seq<Json>, chosen: seq<Json>, i: nat)
    requires Classed(wanted, got) && wanted != [] && SameItems(chosen, got) && Aligned(wanted, chosen)
    requires i < |got| && Same(wanted[0], got[i])
    ensures Classed(wanted[1..], Dropped(got, i)) && Assignable(wanted[1..], Dropped(got, i))
  {
    hide Same, SameItems, Dropped, Shifted;
    SameMembers(chosen, got);
    assert got[i] in chosen;
    var j :| 0 <= j < |chosen| && chosen[j] == got[i];
    WithoutBoth(chosen, got, j, i);
    ShiftedItems(chosen, j);
    var rest := Shifted(chosen, j);
    SameItemsTurned(rest, Dropped(chosen, j), Dropped(got, i));
    assert wanted[j] in wanted && chosen[0] in got;
    ShiftedAligned(wanted, chosen, j);
    ClassedRest(wanted, got, i);
  }

  // ---------------------------------------------------------------- what the order decides

  /** A list that some assignment shows is accepted in every order exactly if wanted
      items that share a candidate share all their candidates. */
  lemma AnyOrderIsClassed(wanted: seq<Json>, got: seq<Json>)
    requires Assignable(wanted, got)
    ensures InAnyOrder(wanted, got) <==> Classed(wanted, got)
  {
    hide Same;
    if Classed(wanted, got) {
      forall w, g | SameItems(w, wanted) && SameItems(g, got) ensures AllMatched(w, g) {
        SameMembers(w, wanted);
        SameMembers(g, got);
        AssignableInAnyOrder(w, wanted, got);
        assert Assignable(w, g);
        ClassedIsMatched(w, g);
      }
    } else {
      var chosen :| SameItems(chosen, got) && Aligned(wanted, chosen);
      SameMembers(chosen, got);
      var a, b, c, d :| a in wanted && b in wanted && c in got && d in got && Same(a, c) && Same(b, c) && Same(b, d) && !Same(a, d);
      var w, g := SomeOrderFails(wanted, got, a, b, c, d);
    }
  }

  /** A list that no assignment shows is rejected in every order. */
  lemma UnassignableIsRejected(wanted: seq<Json>, got: seq<Json>, w: seq<Json>, g: seq<Json>)
    requires |wanted| == |got| && SameItems(w, wanted) && SameItems(g, got) && AllMatched(w, g)
    ensures Assignable(wanted, got)
  {
    hide Same;
    SameMembers(w, wanted);
    SameMembers(g, got);
    MatchedIsAssigned(w, g);
    AssignableInAnyOrder(wanted, w, g);
    assert Assignable(wanted, got);
  }

  lemma StillThere(s: seq<Json>, i: nat, b: Json)
    requires i < |s| && b in s && s[i] != b
    ensures b in Dropped(s, i)
  {
    assert s == s[..i] + [s[i]] + s[i + 1..];
  }

  /** Two items taken to the front. */
  lemma TwoInFront(s: seq<Json>, a: Json, b: Json) returns (rest: seq<Json>)
    requires a in s && b in s && a != b
    ensures SameItems([a, b] + rest, s)
  {
    hide SameItems, Dropped;
    var i :| 0 <= i < |s| && s[i] == a;
    var once := Dropped(s, i);
    StillThere(s, i, b);
    var j :| 0 <= j < |once| && once[j] == b;
    rest := Dropped(once, j);
    SameAsEver(rest);
    WithHead(rest, once, j);
    WithHead([b] + rest, s, i);
    assert [a] + ([b] + rest) == [a, b] + rest;
  }

  lemma HeadLast(a: Json, b: Json, rest: seq<Json>, s: seq<Json>)
    requires SameItems([a, b] + rest, s)
    ensures SameItems([b] + rest + [a], s)
  {
    assert [a, b] + rest == [a] + ([b] + rest);
  }

  lemma SecondLast(c: Json, d: Json, others: seq<Json>, chosen: seq<Json>, s: seq<Json>)
    requires SameItems([c, d] + others, s) && SameItems(chosen, others)
    ensures SameItems([c] + chosen + [d], s)
  {
    assert [c, d] + others == [c] + ([d] + others);
  }

  /** Otherwise the wrong candidate can be taken first. */
  lemma SomeOrderFails(wanted: seq<Json>, got: seq<Json>, a: Json, b: Json, c: Json, d: Json) returns (w: seq<Json>, g: seq<Json>)
    requires |wanted| == |got|
    requires a in wanted && b in wanted && c in got && d in got && Same(a, c) && Same(b, c) && Same(b, d) && !Same(a, d)
    ensures SameItems(w, wanted) && SameItems(g, got) && !AllMatched(w, g)
  {
    hide Same, SameItems, AllMatched;
    var rest := TwoInFront(wanted, a, b);
    var others := TwoInFront(got, c, d);
    assert Aligned([b, a], [d, c]);
    w, g := [b, a] + rest, [d, c] + others;
    TwoSwapped(a, b, rest, wanted);
    TwoSwapped(c, d, others, got);
    AlignedAreTaken([b, a], [d, c], rest, others);
    if AllMatched(w, g) {
      SameMembers(w, wanted);
      SameMembers(g, got);
      MatchedIsAssigned(rest, others);
      var chosen :| SameItems(chosen, others) && Aligned(rest, chosen);
      w, g := [b] + rest + [a], [c] + chosen + [d];
      HeadLast(a, b, rest, wanted);
      SecondLast(c, d, others, chosen, got);
      assert ([b] + rest)[1..] == rest;
      AlignedHead([b] + rest, chosen, c);
      AlignedAreTaken([b] + rest, [c] + chosen, [a], [d]);
      MatchedStep([a], [d]);
      FirstMatchIs(a, [d]);
    }
  }

  lemma TwoSwapped(a: Json, b: Json, rest: seq<Json>, s: seq<Json>)
    requires SameItems([a, b] + rest, s)
    ensures SameItems([b, a] + rest, s)
  {
    assert multiset([a, b]) == multiset([b, a]);
  }

  // ---------------------------------------------------------------- lists as they are written

  predicate Scalar(j: Json) {
    !j.Arr? && !j.Obj?
  }

  predicate IsMember(j: Json) {
    j.Obj? && j.fields.Keys == {"name"} && j.fields["name"].Text?
  }

  lemma MemberShown(m: Json, got: Json)
    requires IsMember(m)
    ensures Same(m, got) <==> got.Obj? && "name" in got.fields && ScalarSame(m.fields["name"], got.fields["name"])
  {
    assert forall k :: k in m.fields <==> k == "name";
    var name := m.fields["name"];
    if got.Obj? && "name" in got.fields {
      assert FieldSame(name, got.fields["name"]) <==> Same(name, got.fields["name"]);
      assert Same(name, got.fields["name"]) <==> ScalarSame(name, got.fields["name"]);
    }
  }

  /** Lists of scalars and member lists compare the same in every order. */
  lemma ReviewedListsInAnyOrder(wanted: seq<Json>, got: seq<Json>)
    requires (forall j :: j in wanted ==> Scalar(j)) || (forall j :: j in wanted ==> IsMember(j))
    ensures Classed(wanted, got)
    ensures Assignable(wanted, got) <==> |wanted| == |got| && InAnyOrder(wanted, got)
  {
    forall a, b, c, d | a in wanted && b in wanted && c in got && d in got && Same(a, c) && Same(b, c) && Same(b, d) ensures Same(a, d) {
      if forall j :: j in wanted ==> Scalar(j) {
        assert Same(a, d) <==> ScalarSame(a, d);
      } else {
        MemberShown(a, c);
        MemberShown(b, c);
        MemberShown(b, d);
        MemberShown(a, d);
      }
    }
    hide Same;
    if Assignable(wanted, got) {
      var chosen :| SameItems(chosen, got) && Aligned(wanted, chosen);
      SameMembers(chosen, got);
      AnyOrderIsClassed(wanted, got);
    } else if |wanted| == |got| && InAnyOrder(wanted, got) {
      assert SameItems(wanted, wanted) && SameItems(got, got);
      MatchedIsAssigned(wanted, got);
    }
  }

  /** The item with fewer fields takes the candidate that the other one needs. */
  lemma OrderMatters()
    ensures var a, ab := Obj(map["a" := Text("x")]), Obj(map["a" := Text("x"), "b" := Text("y")]);
      Same(Arr([a, ab]), Arr([a, ab])) && !Same(Arr([a, ab]), Arr([ab, a]))
  {
    var a, ab := Obj(map["a" := Text("x")]), Obj(map["a" := Text("x"), "b" := Text("y")]);
    SameAsItself(Arr([a, ab]));
    var w, g := [a, ab], [ab, a];
    assert Same(a, ab) && !Same(ab, a) by { assert "b" in ab.fields; }
    hide Same;
    assert Aligned([a], [ab]);
    AlignedAreTaken([a], [ab], [ab], [a]);
    assert [a] + [ab] == w && [ab] + [a] == g;
    MatchedStep([ab], [a]);
    FirstMatchIs(ab, [a]);
    ListsMatched(w, g);
  }

  lemma ListsMatched(wanted: seq<Json>, got: seq<Json>)
    ensures Same(Arr(wanted), Arr(got)) <==> |wanted| == |got| && AllMatched(wanted, got)
  {
  }
}
