/** The structural differ: what it reports is a patch. */
module StructuredDiff {
  import opened Jsons
  import opened JsonPointers
  import opened Texts

  /** A value that is absent counts as Null. */
  datatype Change = Change(path: string, before: Json, after: Json)

  // ---------------------------------------------------------------- the parts of a value

  datatype Key = Name(name: string) | Position(at: nat)

  function Keys(j: Json): set<Key> {
    match j
    case Obj(fields) => set k | k in fields :: Name(k)
    case Arr(items) => set i: nat | 0 <= i < |items| :: Position(i)
    case _ => {}
  }

  /** The part of a value; Null where there is none. */
  function Child(j: Json, key: Key): (c: Json)
    ensures key in Keys(j) ==> c < j
    ensures key !in Keys(j) ==> c == Null
  {
    if j.Obj? && key.Name? && key.name in j.fields then j.fields[key.name]
    else if j.Arr? && key.Position? && key.at < |j.items| then j.items[key.at]
    else Null
  }

  predicate SameShape(a: Json, b: Json) {
    (a.Obj? && b.Obj?) || (a.Arr? && b.Arr?)
  }

  function Step(key: Key): string {
    if key.Name? then Segment(key.name) else Decimal(key.at)
  }

  function Down(path: string, key: Key): string {
    ChildPath(path, Step(key))
  }

  lemma StepsApart(a: Key, b: Key)
    requires a.Name? == b.Name? && Step(a) == Step(b)
    ensures a == b
  {
    if a.Name? { SegmentsApart(a.name, b.name); } else { DecimalsApart(a.at, b.at); }
  }

  lemma StepHasNoSlash(key: Key)
    ensures NoSlash(Step(key))
  {
    if key.Name? { SegmentHasNoSlash(key.name); } else { DecimalFacts(key.at); }
  }

  // ---------------------------------------------------------------- the order of the parts

  predicate IsLeast(k: string, names: set<string>) {
    k in names && forall j :: j in names && j != k ==> TextLess(k, j)
  }

  lemma {:induction false} HasLeast(names: set<string>)
    requires names != {}
    ensures exists k :: IsLeast(k, names)
  {
    var n :| n in names;
    var rest := names - {n};
    if rest == {} {
      assert names == {n};
      assert IsLeast(n, names);
    } else {
      HasLeast(rest);
      var k :| IsLeast(k, rest);
      TextOrder(n, k);
      if TextLess(n, k) {
        forall j | j in names && j != n ensures TextLess(n, j) {
          if j != k { TextTrans(n, k, j); }
        }
        assert IsLeast(n, names);
      } else {
        assert IsLeast(k, names);
      }
    }
  }

  function Least(names: set<string>): (k: string)
    requires names != {}
    ensures IsLeast(k, names)
  {
    HasLeast(names);
    assert forall a, b :: IsLeast(a, names) && IsLeast(b, names) ==> a == b by {
      forall a, b | IsLeast(a, names) && IsLeast(b, names) ensures a == b { TextOrder(a, b); }
    }
    var k :| k in names && IsLeast(k, names);
    k
  }

  function SortedNames(names: set<string>): (keys: seq<Key>)
    decreases |names|
  {
    if names == {} then [] else
    var k := Least(names);
    [Name(k)] + SortedNames(names - {k})
  }

  lemma {:induction false} SortedNamesFacts(names: set<string>)
    ensures forall key :: key in SortedNames(names) <==> key.Name? && key.name in names
    ensures Distinct(SortedNames(names)) && Rising(SortedNames(names))
    decreases |names|
  {
    if names != {} {
      var k := Least(names);
      SortedNamesFacts(names - {k});
      var rest := SortedNames(names - {k});
      assert forall key :: key in [Name(k)] + rest <==> key == Name(k) || key in rest;
    }
  }

  /** Names in ascending order. */
  ghost predicate Rising(keys: seq<Key>) {
    forall i, j :: 0 <= i < j < |keys| && keys[i].Name? && keys[j].Name? ==> TextLess(keys[i].name, keys[j].name)
  }

  ghost predicate Distinct(keys: seq<Key>) {
    forall i, j :: 0 <= i < j < |keys| ==> keys[i] != keys[j]
  }

  function Larger(a: nat, b: nat): nat {
    if a < b then b else a
  }

  function Positions(n: nat): seq<Key> {
    seq(n, i requires 0 <= i < n => Position(i))
  }

  /** The parts of two values of the same shape, in the order they are compared. */
  function KeyList(a: Json, b: Json): seq<Key> {
    if a.Obj? && b.Obj? then SortedNames(a.fields.Keys + b.fields.Keys)
    else if a.Arr? && b.Arr? then Positions(Larger(|a.items|, |b.items|))
    else []
  }

  lemma KeyListFacts(a: Json, b: Json)
    requires SameShape(a, b)
    ensures forall key :: key in KeyList(a, b) <==> key in Keys(a) || key in Keys(b)
    ensures Distinct(KeyList(a, b)) && KeyList(a, b) == KeyList(b, a)
    ensures forall i, j :: 0 <= i < |KeyList(a, b)| && 0 <= j < |KeyList(a, b)| ==> KeyList(a, b)[i].Name? == KeyList(a, b)[j].Name?
  {
    if a.Obj? {
      SortedNamesFacts(a.fields.Keys + b.fields.Keys);
      assert a.fields.Keys + b.fields.Keys == b.fields.Keys + a.fields.Keys;
    } else {
      var n := Larger(|a.items|, |b.items|);
      forall key ensures key in Positions(n) <==> key in Keys(a) || key in Keys(b) {
        if key.Position? && key.at < n { assert Positions(n)[key.at] == key; }
      }
    }
  }

  // ---------------------------------------------------------------- what is reported

  /** The changes between two values, in the order they are reported. */
  function Listed(before: Json, after: Json, path: string): seq<Change>
    decreases before, 2
  {
    if before == after then []
    else if SameShape(before, after) then Flat(before, after, KeyList(before, after), path)
    else [Change(path, before, after)]
  }

  function Flat(before: Json, after: Json, keys: seq<Key>, path: string): seq<Change>
    decreases before, 1, |keys|
  {
    if keys == [] then [] else Part(before, after, keys[0], path) + Flat(before, after, keys[1..], path)
  }

  function Part(before: Json, after: Json, key: Key, path: string): seq<Change>
    decreases before, 0
  {
    if key in Keys(before) then Listed(Child(before, key), Child(after, key), Down(path, key))
    else if Child(after, key) == Null then []
    else [Change(Down(path, key), Null, Child(after, key))]
  }

  lemma FlatFrom(before: Json, after: Json, keys: seq<Key>, i: nat, path: string, found: seq<Change>)
    requires i < |keys|
    ensures found + Flat(before, after, keys[i..], path) == (found + Part(before, after, keys[i], path)) + Flat(before, after, keys[i + 1..], path)
  {
    hide Part;
    assert keys[i..][1..] == keys[i + 1..];
  }

  lemma FlatOfNone(before: Json, after: Json, keys: seq<Key>, i: nat, path: string, found: seq<Change>)
    requires i == |keys|
    ensures found + Flat(before, after, keys[i..], path) == found
  {
    assert keys[i..] == [];
  }

  /** The walk over two values; it appends what it finds to one result. */
  class Differ {
    var result: seq<Change>

    constructor ()
      ensures result == []
    {
      result := [];
    }

    method Walk(before: Json, after: Json, path: string)
      modifies this
      ensures result == old(result) + Listed(before, after, path)
      decreases before, 1
    {
      hide Part, Flat, KeyList;
      if before == after {
        return;
      }
      if SameShape(before, after) {
        var keys := KeyList(before, after);
        var i := 0;
        assert keys[0..] == keys;
        while i < |keys|
          invariant 0 <= i <= |keys|
          invariant result + Flat(before, after, keys[i..], path) == old(result) + Flat(before, after, keys, path)
        {
          var found := result;
          WalkPart(before, after, keys[i], path);
          FlatFrom(before, after, keys, i, path, found);
          i := i + 1;
        }
        FlatOfNone(before, after, keys, i, path, result);
        return;
      }
      result := result + [Change(path, before, after)];
    }

    method WalkPart(before: Json, after: Json, key: Key, path: string)
      modifies this
      ensures result == old(result) + Part(before, after, key, path)
      decreases before, 0
    {
      if key in Keys(before) {
        Walk(Child(before, key), Child(after, key), Down(path, key));
      } else if Child(after, key) != Null {
        result := result + [Change(Down(path, key), Null, Child(after, key))];
      }
    }
  }

  /** The reported changes are a patch from the old value to the new one, and their
      reverse is a patch back; each shows what its path points at in both values; none
      of their paths leads through another; nothing is reported for values that differ
      by nulls only. */
  method Diff(before: Json, after: Json, path: string) returns (changes: seq<Change>)
    ensures changes == Listed(before, after, path)
    ensures Alike(Patched(before, changes, path), after)
    ensures Alike(Patched(after, Reversed(changes), path), before)
    ensures Apart(changes)
    ensures forall c :: c in changes ==> Under(c.path, path) && IsShown(c, before, after, path)
    ensures changes == [] <==> Alike(before, after)
  {
    var differ := new Differ();
    differ.Walk(before, after, path);
    changes := differ.result;
    DiffIsPatch(before, after, path);
    DiffBackwards(before, after, path);
    DiffIsPatch(after, before, path);
    PathsApart(before, after, path);
    NothingToReport(before, after, path);
    ChangesAreShown(before, after, path);
  }

  // ---------------------------------------------------------------- where the changes are

  ghost predicate Apart(cs: seq<Change>) {
    forall i, j :: 0 <= i < |cs| && 0 <= j < |cs| && i != j ==> !Under(cs[i].path, cs[j].path)
  }

  ghost predicate AllUnder(cs: seq<Change>, path: string) {
    forall c :: c in cs ==> Under(c.path, path)
  }

  lemma {:induction false} PathsApart(before: Json, after: Json, path: string)
    ensures Apart(Listed(before, after, path)) && AllUnder(Listed(before, after, path), path)
    decreases before, 2
  {
    if before != after && SameShape(before, after) {
      var keys := KeyList(before, after);
      KeyListFacts(before, after);
      forall key: Key ensures PartOk(before, after, key, path) { PartApart(before, after, key, path); }
      FlatApart(before, after, keys, path);
    }
  }

  ghost predicate PartOk(before: Json, after: Json, key: Key, path: string) {
    Apart(Part(before, after, key, path)) && AllUnder(Part(before, after, key, path), Down(path, key))
  }

  lemma {:induction false} PartApart(before: Json, after: Json, key: Key, path: string)
    ensures PartOk(before, after, key, path)
    decreases before, 0
  {
    if key in Keys(before) { PathsApart(Child(before, key), Child(after, key), Down(path, key)); }
  }

  ghost predicate OneKind(keys: seq<Key>) {
    forall i, j :: 0 <= i < |keys| && 0 <= j < |keys| ==> keys[i].Name? == keys[j].Name?
  }

  lemma {:induction false} FlatApart(before: Json, after: Json, keys: seq<Key>, path: string)
    requires Distinct(keys) && OneKind(keys)
    requires forall key: Key :: PartOk(before, after, key, path)
    ensures Apart(Flat(before, after, keys, path))
    ensures AllUnder(Flat(before, after, keys, path), path)
    ensures forall c :: c in Flat(before, after, keys, path) ==> exists i :: 0 <= i < |keys| && Under(c.path, Down(path, keys[i]))
  {
    hide Part, Under;
    if keys != [] {
      var first, rest := Part(before, after, keys[0], path), Flat(before, after, keys[1..], path);
      FlatApart(before, after, keys[1..], path);
      assert PartOk(before, after, keys[0], path);
      forall c | c in first ensures Under(c.path, path) { UnderChild(c.path, path, Step(keys[0])); }
      forall c, d | c in first && d in rest ensures !Under(c.path, d.path) && !Under(d.path, c.path) {
        var i :| 0 <= i < |keys[1..]| && Under(d.path, Down(path, keys[1..][i]));
        assert keys[1..][i] == keys[i + 1];
        BranchesApart(c.path, d.path, path, keys[0], keys[i + 1]);
      }
      ApartJoined(first, rest);
      forall c | c in rest ensures exists i :: 0 <= i < |keys| && Under(c.path, Down(path, keys[i])) {
        var i :| 0 <= i < |keys[1..]| && Under(c.path, Down(path, keys[1..][i]));
        assert Under(c.path, Down(path, keys[i + 1]));
      }
    }
  }

  lemma ApartJoined(first: seq<Change>, rest: seq<Change>)
    requires Apart(first) && Apart(rest)
    requires forall c, d :: c in first && d in rest ==> !Under(c.path, d.path) && !Under(d.path, c.path)
    ensures Apart(first + rest)
  {
    hide Under;
    var all := first + rest;
    forall i, j | 0 <= i < |all| && 0 <= j < |all| && i != j ensures !Under(all[i].path, all[j].path) {
      if i < |first| && j < |first| {
        assert all[i] == first[i] && all[j] == first[j];
      } else if i >= |first| && j >= |first| {
        assert all[i] == rest[i - |first|] && all[j] == rest[j - |first|];
      } else if i < |first| {
        assert all[i] == first[i] && all[j] == rest[j - |first|];
      } else {
        assert all[i] == rest[i - |first|] && all[j] == first[j];
      }
    }
  }

  lemma UnderTrans(a: string, b: string, c: string)
    requires Under(a, b) && Under(b, c)
    ensures Under(a, c)
  {
    assert a[..|c|] == b[..|c|];
  }

  lemma BranchesApart(p: string, q: string, path: string, a: Key, b: Key)
    requires a != b && a.Name? == b.Name? && Under(p, Down(path, a)) && Under(q, Down(path, b))
    ensures !Under(p, q) && !Under(q, p)
  {
    hide Under;
    StepHasNoSlash(a);
    StepHasNoSlash(b);
    if Under(p, q) {
      UnderTrans(p, q, Down(path, b));
      ChildrenApart(p, path, Step(a), Step(b));
      StepsApart(a, b);
    } else if Under(q, p) {
      UnderTrans(q, p, Down(path, a));
      ChildrenApart(q, path, Step(a), Step(b));
      StepsApart(a, b);
    }
  }

  // ---------------------------------------------------------------- what the changes point at

  /** The part of a document that one reference token names. */
  ghost function Named(j: Json, token: string): Json {
    if j.Obj? && Decoded(token) in j.fields then j.fields[Decoded(token)]
    else if j.Arr? && 0 <= ValueOf(token) < |j.items| then j.items[ValueOf(token)]
    else Null
  }

  /** Evaluating a pointer, token by token; section 4 of RFC 6901. */
  ghost function PointedAt(j: Json, tokens: seq<string>): Json
    decreases |tokens|
  {
    if tokens == [] then j else PointedAt(Named(j, tokens[0]), tokens[1..])
  }

  ghost function Pointer(tokens: seq<string>): string {
    if tokens == [] then "" else "/" + tokens[0] + Pointer(tokens[1..])
  }

  /** The change shows what its path points at in both documents, the two values
      differ, and they are not both objects or both lists, which would be compared
      part by part. */
  ghost predicate IsShown(c: Change, before: Json, after: Json, path: string) {
    && c.before != c.after && !(c.before.Obj? && c.after.Obj?) && !(c.before.Arr? && c.after.Arr?)
    && exists tokens :: c.path == path + Pointer(tokens) && PointedAt(before, tokens) == c.before && PointedAt(after, tokens) == c.after
  }

  lemma {:induction false} ChangesAreShown(before: Json, after: Json, path: string)
    ensures forall c :: c in Listed(before, after, path) ==> IsShown(c, before, after, path)
    decreases before, 2
  {
    if before != after {
      if SameShape(before, after) {
        hide IsShown, Part, KeyList;
        var keys := KeyList(before, after);
        forall key | key in keys ensures forall c :: c in Part(before, after, key, path) ==> IsShown(c, before, after, path) {
          KeyListFacts(before, after);
          PartIsShown(before, after, key, path);
        }
        forall c ensures c in Listed(before, after, path) ==> exists key :: key in keys && c in Part(before, after, key, path) {
          FlatHas(before, after, keys, path, c);
        }
      } else {
        assert path + Pointer([]) == path && PointedAt(before, []) == before && PointedAt(after, []) == after;
      }
    }
  }

  lemma {:induction false} PartIsShown(before: Json, after: Json, key: Key, path: string)
    requires SameShape(before, after) && (key in Keys(before) || key in Keys(after))
    ensures forall c :: c in Part(before, after, key, path) ==> IsShown(c, before, after, path)
    decreases before, 0
  {
    hide IsShown;
    KeyIsNamed(before, key);
    KeyIsNamed(after, key);
    var b, a := Child(before, key), Child(after, key);
    if key in Keys(before) {
      ChangesAreShown(b, a, Down(path, key));
      forall c | c in Listed(b, a, Down(path, key)) ensures IsShown(c, before, after, path) { ShownDeeper(c, before, after, key, path); }
    } else if a != Null {
      ShownHere(before, after, key, path);
    }
  }

  lemma KeyIsNamed(j: Json, key: Key)
    requires OfKind(key, j) && (j.Obj? || j.Arr?)
    ensures Named(j, Step(key)) == Child(j, key)
  {
    if key.Name? { SegmentDecodes(key.name); } else { DecimalIs(key.at); }
  }

  lemma DeeperPointer(token: string, tokens: seq<string>, j: Json, path: string)
    ensures PointedAt(j, [token] + tokens) == PointedAt(Named(j, token), tokens)
    ensures path + Pointer([token] + tokens) == ChildPath(path, token) + Pointer(tokens)
  {
    hide Named;
    assert ([token] + tokens)[1..] == tokens;
  }

  lemma ShownDeeper(c: Change, before: Json, after: Json, key: Key, path: string)
    requires IsShown(c, Child(before, key), Child(after, key), Down(path, key))
    requires Named(before, Step(key)) == Child(before, key) && Named(after, Step(key)) == Child(after, key)
    ensures IsShown(c, before, after, path)
  {
    hide Named, Step, PointedAt, Pointer;
    var b, a := Child(before, key), Child(after, key);
    var tokens :| c.path == Down(path, key) + Pointer(tokens) && PointedAt(b, tokens) == c.before && PointedAt(a, tokens) == c.after;
    DeeperPointer(Step(key), tokens, before, path);
    DeeperPointer(Step(key), tokens, after, path);
    assert c.path == path + Pointer([Step(key)] + tokens);
  }

  lemma ShownHere(before: Json, after: Json, key: Key, path: string)
    requires Child(before, key) == Null != Child(after, key)
    requires Named(before, Step(key)) == Child(before, key) && Named(after, Step(key)) == Child(after, key)
    ensures IsShown(Change(Down(path, key), Null, Child(after, key)), before, after, path)
  {
    hide Named, Step;
    DeeperPointer(Step(key), [], before, path);
    DeeperPointer(Step(key), [], after, path);
    assert [Step(key)] + [] == [Step(key)];
    assert PointedAt(before, [Step(key)]) == Child(before, key) && PointedAt(after, [Step(key)]) == Child(after, key);
    assert path + Pointer([Step(key)]) == Down(path, key);
  }

  // ---------------------------------------------------------------- up to absent and null

  /** Equal, where a missing part and a null part are the same. */
  predicate Alike(a: Json, b: Json)
    decreases a
  {
    if (a.Obj? && b.Obj?) || (a.Arr? && b.Arr?) then forall key :: key in Keys(a) + Keys(b) ==>
      if key in Keys(a) then Alike(Child(a, key), Child(b, key)) else Child(b, key) == Null
    else a == b
  }

  predicate PartAlike(a: Json, b: Json, key: Key)
  {
    if key in Keys(a) then Alike(Child(a, key), Child(b, key)) else Child(b, key) == Null
  }

  lemma {:induction false} AlikeItself(j: Json)
    ensures Alike(j, j)
  {
    forall key | key in Keys(j) ensures Alike(Child(j, key), Child(j, key)) { AlikeItself(Child(j, key)); }
  }

  lemma {:induction false} NothingToReport(before: Json, after: Json, path: string)
    ensures Listed(before, after, path) == [] <==> Alike(before, after)
    decreases before, 1
  {
    if before == after {
      AlikeItself(before);
    } else if SameShape(before, after) {
      KeyListFacts(before, after);
      forall key | key in Keys(before) + Keys(after)
        ensures Part(before, after, key, path) == [] <==> PartAlike(before, after, key)
      {
        if key in Keys(before) { NothingToReport(Child(before, key), Child(after, key), Down(path, key)); }
      }
      FlatEmpty(before, after, KeyList(before, after), path);
    }
  }

  lemma {:induction false} FlatEmpty(before: Json, after: Json, keys: seq<Key>, path: string)
    ensures Flat(before, after, keys, path) == [] <==> forall key :: key in keys ==> Part(before, after, key, path) == []
  {
    if keys != [] {
      assert keys[0] in keys && forall key :: key in keys <==> key == keys[0] || key in keys[1..];
      assert Flat(before, after, keys, path) == Part(before, after, keys[0], path) + Flat(before, after, keys[1..], path);
      FlatEmpty(before, after, keys[1..], path);
    }
  }

  // ---------------------------------------------------------------- backwards

  function Reversed(cs: seq<Change>): seq<Change> {
    seq(|cs|, i requires 0 <= i < |cs| => Change(cs[i].path, cs[i].after, cs[i].before))
  }

  lemma {:induction false} DiffBackwards(before: Json, after: Json, path: string)
    ensures Listed(after, before, path) == Reversed(Listed(before, after, path))
    decreases before, 2
  {
    if before != after && SameShape(before, after) {
      KeyListFacts(before, after);
      forall key: Key ensures Part(after, before, key, path) == Reversed(Part(before, after, key, path)) {
        PartBackwards(before, after, key, path);
      }
      FlatBackwards(before, after, KeyList(before, after), path);
    }
  }

  lemma {:induction false} PartBackwards(before: Json, after: Json, key: Key, path: string)
    ensures Part(after, before, key, path) == Reversed(Part(before, after, key, path))
    decreases before, 0
  {
    if key in Keys(before) { DiffBackwards(Child(before, key), Child(after, key), Down(path, key)); }
  }

  lemma {:induction false} FlatBackwards(before: Json, after: Json, keys: seq<Key>, path: string)
    requires forall key: Key :: Part(after, before, key, path) == Reversed(Part(before, after, key, path))
    ensures Flat(after, before, keys, path) == Reversed(Flat(before, after, keys, path))
  {
    hide Part;
    if keys != [] {
      FlatBackwards(before, after, keys[1..], path);
      assert Part(after, before, keys[0], path) == Reversed(Part(before, after, keys[0], path));
    }
  }

  // ---------------------------------------------------------------- applying changes

  ghost predicate Addressed(cs: seq<Change>, path: string) {
    exists c :: c in cs && c.path == path
  }

  /** What the change at a path puts there. */
  ghost function Put(cs: seq<Change>, path: string): Json
    requires Addressed(cs, path)
  {
    var c :| c in cs && c.path == path;
    c.after
  }

  /** The names that changes add below a path. */
  ghost function AddedNames(cs: seq<Change>, path: string): set<string> {
    set c | c in cs && |c.path| > |path| && Down(path, Name(Decoded(c.path[|path| + 1..]))) == c.path :: Decoded(c.path[|path| + 1..])
  }

  /** One more than the last position that a change addresses below a path. */
  ghost function Beyond(cs: seq<Change>, path: string): nat {
    if cs == [] then 0
    else
      var rest := Beyond(cs[1..], path);
      if exists i: nat :: cs[0].path == Down(path, Position(i)) then
        var i: nat :| cs[0].path == Down(path, Position(i));
        Larger(rest, i + 1)
      else rest
  }

  /** The value with every addressed part replaced; new parts appear where changes
      address them. */
  ghost function Patched(j: Json, cs: seq<Change>, path: string): Json
    decreases j, 1
  {
    if Addressed(cs, path) then Put(cs, path)
    else match j
      case Obj(fields) => Obj(map k | k in fields.Keys + AddedNames(cs, path) :: PatchedPart(j, cs, path, Name(k)))
      case Arr(items) => Arr(seq(Larger(|items|, Beyond(cs, path)), i requires 0 <= i < Larger(|items|, Beyond(cs, path)) => PatchedPart(j, cs, path, Position(i))))
      case _ => j
  }

  ghost function PatchedPart(j: Json, cs: seq<Change>, path: string, key: Key): Json
    decreases j, 0
  {
    if key in Keys(j) then Patched(Child(j, key), cs, Down(path, key))
    else if Addressed(cs, Down(path, key)) then Put(cs, Down(path, key))
    else Null
  }

  /** Among `cs`, exactly the changes in `mine` lie at or below the path. */
  ghost predicate Local(cs: seq<Change>, path: string, mine: seq<Change>) {
    forall c :: c in mine <==> c in cs && Under(c.path, path)
  }

  /** Applying the reported changes to the old value gives the new one. */
  lemma DiffIsPatch(before: Json, after: Json, path: string)
    ensures Alike(Patched(before, Listed(before, after, path), path), after)
  {
    PathsApart(before, after, path);
    PatchWithin(before, after, path, Listed(before, after, path));
  }

  lemma {:induction false} PatchWithin(before: Json, after: Json, path: string, cs: seq<Change>)
    requires Local(cs, path, Listed(before, after, path))
    ensures Alike(Patched(before, cs, path), after)
    decreases before, 2
  {
    hide Patched, Under, Flat, Alike;
    if before == after {
      assert forall c :: c in cs ==> !Under(c.path, path);
      Untouched(before, cs, path);
      AlikeItself(after);
    } else if SameShape(before, after) {
      NotAddressed(before, after, path, cs);
      forall key | key in Keys(before) ensures Alike(PatchedPart(before, cs, path, key), Child(after, key)) {
        LocalPart(before, after, path, cs, key);
        PatchWithin(Child(before, key), Child(after, key), Down(path, key), cs);
      }
      forall key | key !in Keys(before) && OfKind(key, before) ensures PatchedPart(before, cs, path, key) == Child(after, key) && (Addressed(cs, Down(path, key)) <==> Child(after, key) != Null)
      {
        NewPart(before, after, path, cs, key);
      }
      PartsMakeWhole(before, after, path, cs);
    } else {
      OtherShape(before, after, path, cs);
      AlikeItself(after);
    }
  }

  predicate OfKind(key: Key, j: Json) {
    key.Name? == j.Obj?
  }

  lemma UnderItself(path: string)
    ensures Under(path, path)
  {
  }

  lemma OtherShape(before: Json, after: Json, path: string, cs: seq<Change>)
    requires before != after && !SameShape(before, after) && Local(cs, path, Listed(before, after, path))
    ensures Patched(before, cs, path) == after
  {
    UnderItself(path);
    hide Under;
    var c := Change(path, before, after);
    assert c in Listed(before, after, path);
    assert Addressed(cs, path);
    assert forall d :: d in cs && d.path == path ==> d in Listed(before, after, path);
  }

  lemma {:induction false} FlatHas(before: Json, after: Json, keys: seq<Key>, path: string, c: Change)
    ensures c in Flat(before, after, keys, path) <==> exists key :: key in keys && c in Part(before, after, key, path)
  {
    hide Part;
    if keys != [] {
      assert keys[0] in keys && forall key :: key in keys <==> key == keys[0] || key in keys[1..];
      assert Flat(before, after, keys, path) == Part(before, after, keys[0], path) + Flat(before, after, keys[1..], path);
      FlatHas(before, after, keys[1..], path, c);
    }
  }

  lemma NotAddressed(before: Json, after: Json, path: string, cs: seq<Change>)
    requires before != after && SameShape(before, after) && Local(cs, path, Listed(before, after, path))
    ensures !Addressed(cs, path)
  {
    hide Under, Part, Flat;
    if Addressed(cs, path) {
      var c :| c in cs && c.path == path;
      UnderItself(path);
      assert c in Flat(before, after, KeyList(before, after), path);
      FlatHas(before, after, KeyList(before, after), path, c);
      var key :| key in KeyList(before, after) && c in Part(before, after, key, path);
      PartApart(before, after, key, path);
      UnderChild(c.path, path, Step(key));
    }
  }

  lemma LocalPart(before: Json, after: Json, path: string, cs: seq<Change>, key: Key)
    requires before != after && SameShape(before, after) && Local(cs, path, Listed(before, after, path)) && OfKind(key, before)
    ensures Local(cs, Down(path, key), Part(before, after, key, path))
  {
    hide Under, Part, Flat;
    var keys := KeyList(before, after);
    KeyListFacts(before, after);
    forall c ensures c in Part(before, after, key, path) <==> c in cs && Under(c.path, Down(path, key)) {
      FlatHas(before, after, keys, path, c);
      if c in Part(before, after, key, path) {
        PartApart(before, after, key, path);
        UnderChild(c.path, path, Step(key));
        PartHasKey(before, after, key, path, c);
      } else if c in cs && Under(c.path, Down(path, key)) {
        UnderChild(c.path, path, Step(key));
        assert c in Flat(before, after, keys, path);
        var other :| other in keys && c in Part(before, after, other, path);
        PartApart(before, after, other, path);
        KeysOfKind(before, after, other);
        BranchesApartSelf(c.path, path, key, other);
      }
    }
  }

  lemma BranchesApartSelf(p: string, path: string, a: Key, b: Key)
    requires a.Name? == b.Name? && Under(p, Down(path, a)) && Under(p, Down(path, b))
    ensures a == b
  {
    UnderItself(p);
    if a != b { BranchesApart(p, p, path, a, b); }
  }

  lemma KeysOfKind(before: Json, after: Json, key: Key)
    requires SameShape(before, after) && key in KeyList(before, after)
    ensures OfKind(key, before)
  {
    KeyListFacts(before, after);
  }

  lemma PartHasKey(before: Json, after: Json, key: Key, path: string, c: Change)
    requires SameShape(before, after) && c in Part(before, after, key, path)
    ensures key in KeyList(before, after)
  {
    KeyListFacts(before, after);
  }

  lemma NewPart(before: Json, after: Json, path: string, cs: seq<Change>, key: Key)
    requires before != after && SameShape(before, after) && Local(cs, path, Listed(before, after, path))
    requires key !in Keys(before) && OfKind(key, before)
    ensures PatchedPart(before, cs, path, key) == Child(after, key)
    ensures Addressed(cs, Down(path, key)) <==> Child(after, key) != Null
  {
    LocalPart(before, after, path, cs, key);
    UnderItself(Down(path, key));
    hide Under, Listed, Down, Child, Keys;
    var part := Part(before, after, key, path);
    if Child(after, key) != Null {
      assert part[0] in part;
    }
  }

  lemma {:induction false} BeyondPosition(cs: seq<Change>, path: string, i: nat)
    requires Addressed(cs, Down(path, Position(i)))
    ensures i < Beyond(cs, path)
  {
    var c :| c in cs && c.path == Down(path, Position(i));
    if cs[0] == c {
      forall j: nat | c.path == Down(path, Position(j)) ensures j == i { DownApart(path, Position(i), Position(j)); }
    } else {
      assert c in cs[1..];
      BeyondPosition(cs[1..], path, i);
    }
  }

  lemma DownApart(path: string, a: Key, b: Key)
    requires a.Name? == b.Name? && Down(path, a) == Down(path, b)
    ensures a == b
  {
    UnderItself(Down(path, a));
    BranchesApartSelf(Down(path, a), path, a, b);
  }

  lemma DownIsUnder(path: string, key: Key)
    ensures Under(Down(path, key), path)
  {
    UnderItself(Down(path, key));
    UnderChild(Down(path, key), path, Step(key));
  }

  lemma AddedName(cs: seq<Change>, path: string, k: string)
    requires Addressed(cs, Down(path, Name(k)))
    ensures k in AddedNames(cs, path)
  {
    var c :| c in cs && c.path == Down(path, Name(k));
    SegmentDecodes(k);
    assert c.path[|path| + 1..] == Segment(k);
  }

  lemma {:induction false} NothingBeyond(cs: seq<Change>, path: string)
    requires forall c :: c in cs ==> !Under(c.path, path)
    ensures Beyond(cs, path) == 0
  {
    hide Under;
    if cs != [] {
      forall i: nat ensures cs[0].path != Down(path, Position(i)) { DownIsUnder(path, Position(i)); }
      NothingBeyond(cs[1..], path);
    }
  }

  lemma NothingAdded(cs: seq<Change>, path: string)
    requires forall c :: c in cs ==> !Under(c.path, path)
    ensures AddedNames(cs, path) == {}
  {
    hide Under;
    forall k: string ensures k !in AddedNames(cs, path) { DownIsUnder(path, Name(k)); }
  }

  lemma {:induction false} Untouched(j: Json, cs: seq<Change>, path: string)
    requires forall c :: c in cs ==> !Under(c.path, path)
    ensures Patched(j, cs, path) == j
  {
    hide Under, AddedNames, Beyond;
    UnderItself(path);
    NothingAdded(cs, path);
    NothingBeyond(cs, path);
    forall key | key in Keys(j) ensures PatchedPart(j, cs, path, key) == Child(j, key) {
      forall c | c in cs ensures !Under(c.path, Down(path, key)) {
        if Under(c.path, Down(path, key)) { UnderChild(c.path, path, Step(key)); }
      }
      Untouched(Child(j, key), cs, Down(path, key));
    }
    hide PatchedPart;
    match j
    case Obj(fields) =>
      forall k | k in fields ensures PatchedPart(j, cs, path, Name(k)) == fields[k] { assert Name(k) in Keys(j); }
    case Arr(items) =>
      forall i: nat | i < |items| ensures PatchedPart(j, cs, path, Position(i)) == items[i] { assert Position(i) in Keys(j); }
    case _ =>
  }

  lemma PatchedChild(j: Json, cs: seq<Change>, path: string, key: Key)
    requires !Addressed(cs, path) && (j.Obj? || j.Arr?) && OfKind(key, j)
    ensures SameShape(Patched(j, cs, path), j)
    ensures key in Keys(Patched(j, cs, path)) ==> Child(Patched(j, cs, path), key) == PatchedPart(j, cs, path, key)
    ensures key in Keys(j) || Addressed(cs, Down(path, key)) ==> key in Keys(Patched(j, cs, path))
  {
    hide PatchedPart, AddedNames, Beyond, Addressed;
    if Addressed(cs, Down(path, key)) {
      if key.Name? { AddedName(cs, path, key.name); } else { BeyondPosition(cs, path, key.at); }
    }
  }

  lemma PartsMakeWhole(before: Json, after: Json, path: string, cs: seq<Change>)
    requires !Addressed(cs, path) && SameShape(before, after)
    requires forall key :: key in Keys(before) ==> Alike(PatchedPart(before, cs, path, key), Child(after, key))
    requires forall key :: key !in Keys(before) && OfKind(key, before) ==>
      PatchedPart(before, cs, path, key) == Child(after, key) && (Addressed(cs, Down(path, key)) <==> Child(after, key) != Null)
    ensures Alike(Patched(before, cs, path), after)
  {
    hide PatchedPart, Addressed, Patched;
    var whole := Patched(before, cs, path);
    PatchedChild(before, cs, path, if before.Obj? then Name("") else Position(0));
    forall key | key in Keys(whole) + Keys(after) ensures PartAlike(whole, after, key) {
      assert OfKind(key, before);
      PatchedChild(before, cs, path, key);
      if key in Keys(whole) && key !in Keys(before) { AlikeItself(Child(after, key)); }
    }
  }
}
