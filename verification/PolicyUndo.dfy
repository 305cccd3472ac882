/** Undoing an update of a policy field by field: the reviewed payload and then
    the rollback payload leave no semantic difference. */
module PolicyUndo {
  import opened Jsons

  type Fields = map<string, Json>

  const READ_ONLY: set<string> := {"policyid", "uuid", "q_origin_key"}

  /** The device sets these itself. */
  lemma ReadOnlyAre(k: string)
    ensures k in READ_ONLY <==> k == "policyid" || k == "uuid" || k == "q_origin_key"
  {
  }

  /** A write overwrites the fields that are sent. */
  ghost function Written(state: Fields, sent: Fields): Fields {
    state + (sent - READ_ONLY)
  }

  /** The value of a field, a default standing in for an omitted one. */
  ghost function Effective(defaults: Fields, state: Fields, k: string): Json {
    if k in state then state[k] else if k in defaults then defaults[k] else Null
  }

  /** The fields that are compared: all known ones and those the reviewed state owns. */
  ghost function Projection(defaults: Fields, expected: Fields): set<string> {
    defaults.Keys + (expected.Keys - READ_ONLY)
  }

  ghost predicate Differs(defaults: Fields, expected: Fields, actual: Fields, k: string) {
    if k in Projection(defaults, expected) then !FieldSame(Effective(defaults, expected, k), Effective(defaults, actual, k))
    else k in actual && k !in READ_ONLY
  }

  /** Reviewed fields that differ, and live fields nobody has reviewed. */
  ghost function Differences(defaults: Fields, expected: Fields, actual: Fields): set<string> {
    set k | k in defaults.Keys + expected.Keys + actual.Keys && Differs(defaults, expected, actual, k)
  }

  /** The projection with the values that stand in for absent fields. */
  method Project(defaults: Fields, expected: Fields) returns (known: Fields)
    ensures known.Keys == Projection(defaults, expected)
    ensures forall k :: k in known ==> known[k] == if k in defaults then defaults[k] else Null
  {
    known := defaults;
    var todo := expected.Keys;
    while todo != {}
      invariant todo <= expected.Keys
      invariant forall k :: k in known <==> k in defaults || (k in expected && k !in todo && k !in READ_ONLY)
      invariant forall k :: k in known ==> known[k] == if k in defaults then defaults[k] else Null
      decreases |todo|
    {
      var k :| k in todo;
      if k !in READ_ONLY && k !in known { known := known[k := Null]; }
      todo := todo - {k};
    }
  }

  method SemanticDifferences(defaults: Fields, expected: Fields, actual: Fields) returns (found: set<string>)
    ensures found == Differences(defaults, expected, actual)
  {
    hide FieldSame;
    var known := Project(defaults, expected);
    found := {};
    var todo := known.Keys;
    while todo != {}
      invariant todo <= known.Keys
      invariant forall k :: k in found <==> k in known && k !in todo && Differs(defaults, expected, actual, k)
      decreases |todo|
    {
      var k :| k in todo;
      var wanted := if k in expected then expected[k] else known[k];
      var observed := if k in actual then actual[k] else known[k];
      if !FieldSame(wanted, observed) { found := found + {k}; }
      todo := todo - {k};
    }
    todo := actual.Keys;
    while todo != {}
      invariant todo <= actual.Keys
      invariant forall k :: k in found <==> (k in known || (k in actual && k !in todo)) && Differs(defaults, expected, actual, k)
      decreases |todo|
    {
      var k :| k in todo;
      if k !in READ_ONLY && k !in known { found := found + {k}; }
      todo := todo - {k};
    }
    forall k ensures k in found <==> k in Differences(defaults, expected, actual) { }
  }

  /** What a rollback writes: the approved base, overlaid with everything known
      that the device showed, and for every field of the payload what the device
      showed or its default. */
  ghost function Restore(defaults: Fields, payload: Fields, live: Fields, base: Fields): Fields {
    var start := if base == map[] then payload else base;
    map k | k in start.Keys + live.Keys + payload.Keys && Restores(defaults, payload, live, start, k)
      :: RestoredValue(defaults, payload, live, start, k)
  }

  ghost predicate Overlaid(defaults: Fields, payload: Fields, live: Fields, k: string) {
    k !in READ_ONLY && ((k in live && (k in defaults || k in payload)) || (k in payload && k in defaults))
  }

  ghost predicate Restores(defaults: Fields, payload: Fields, live: Fields, start: Fields, k: string) {
    k in start || Overlaid(defaults, payload, live, k)
  }

  ghost function RestoredValue(defaults: Fields, payload: Fields, live: Fields, start: Fields, k: string): Json
    requires Restores(defaults, payload, live, start, k)
  {
    if Overlaid(defaults, payload, live, k) then (if k in live then live[k] else defaults[k]) else start[k]
  }

  ghost predicate FromLive(defaults: Fields, live: Fields, k: string) {
    k in live && k !in READ_ONLY && k in defaults
  }

  /** Known fields that the device showed. */
  ghost function WithLive(defaults: Fields, live: Fields, start: Fields): Fields {
    map k | k in start.Keys + live.Keys && (k in start || FromLive(defaults, live, k))
      :: if FromLive(defaults, live, k) then live[k] else start[k]
  }

  ghost predicate FromPayload(defaults: Fields, payload: Fields, live: Fields, k: string) {
    k in payload && k !in READ_ONLY && (k in live || k in defaults)
  }

  /** Every field the payload writes: what the device showed, or the default. */
  ghost function WithPayload(defaults: Fields, payload: Fields, live: Fields, start: Fields): Fields {
    map k | k in start.Keys + payload.Keys && (k in start || FromPayload(defaults, payload, live, k))
      :: if FromPayload(defaults, payload, live, k) then (if k in live then live[k] else defaults[k]) else start[k]
  }

  lemma OverlaysMakeRestore(defaults: Fields, payload: Fields, live: Fields, base: Fields)
    ensures WithPayload(defaults, payload, live, WithLive(defaults, live, if base == map[] then payload else base))
         == Restore(defaults, payload, live, base)
  {
  }

  method RollbackPayload(defaults: Fields, payload: Fields, live: Fields, base: Fields) returns (result: Fields)
    ensures result == Restore(defaults, payload, live, base)
  {
    hide Restore, WithLive, WithPayload;
    result := base;
    if |result| == 0 { result := payload; }
    assert result == if base == map[] then payload else base;
    result := OverlayLive(defaults, live, result);
    result := OverlayPayload(defaults, payload, live, result);
    OverlaysMakeRestore(defaults, payload, live, base);
  }

  method OverlayLive(defaults: Fields, live: Fields, start: Fields) returns (result: Fields)
    ensures result == WithLive(defaults, live, start)
  {
    hide WithLive;
    result := start;
    var todo := live.Keys;
    NothingLive(defaults, live, start);
    while todo != {}
      invariant todo <= live.Keys && result == WithLive(defaults, live - todo, start)
      decreases |todo|
    {
      var k :| k in todo;
      OneMoreLive(defaults, live, start, todo, k);
      if k !in READ_ONLY && k in defaults { result := result[k := live[k]]; }
      todo := todo - {k};
    }
    assert live - todo == live;
  }

  lemma NothingLive(defaults: Fields, live: Fields, start: Fields)
    ensures WithLive(defaults, live - live.Keys, start) == start
  {
  }

  lemma OneMoreLive(defaults: Fields, live: Fields, start: Fields, todo: set<string>, k: string)
    requires k in todo && todo <= live.Keys
    ensures WithLive(defaults, live - (todo - {k}), start)
         == if FromLive(defaults, live, k) then WithLive(defaults, live - todo, start)[k := live[k]] else WithLive(defaults, live - todo, start)
  {
  }

  method OverlayPayload(defaults: Fields, payload: Fields, live: Fields, start: Fields) returns (result: Fields)
    ensures result == WithPayload(defaults, payload, live, start)
  {
    hide WithPayload;
    result := start;
    var todo := payload.Keys;
    NothingWritten(defaults, payload, live, start);
    while todo != {}
      invariant todo <= payload.Keys && result == WithPayload(defaults, payload - todo, live, start)
      decreases |todo|
    {
      var k :| k in todo;
      OneMoreWritten(defaults, payload, live, start, todo, k);
      if k !in READ_ONLY {
        if k in live {
          result := result[k := live[k]];
        } else if k in defaults {
          result := result[k := defaults[k]];
        }
      }
      todo := todo - {k};
    }
    assert payload - todo == payload;
  }

  lemma NothingWritten(defaults: Fields, payload: Fields, live: Fields, start: Fields)
    ensures WithPayload(defaults, payload - payload.Keys, live, start) == start
  {
  }

  lemma OneMoreWritten(defaults: Fields, payload: Fields, live: Fields, start: Fields, todo: set<string>, k: string)
    requires k in todo && todo <= payload.Keys
    ensures var was := WithPayload(defaults, payload - todo, live, start);
      WithPayload(defaults, payload - (todo - {k}), live, start)
        == if !FromPayload(defaults, payload, live, k) then was else if k in live then was[k := live[k]] else was[k := defaults[k]]
  {
  }

  // ---------------------------------------------------------------- the round trip

  /** The snapshot checks: the live policy is the approved base. */
  ghost predicate Approved(defaults: Fields, base: Fields, live: Fields) {
    base != map[] && Differences(defaults, base, live) == {}
  }

  ghost function AfterUndo(defaults: Fields, payload: Fields, live: Fields, base: Fields): Fields {
    Written(Written(live, payload), Restore(defaults, payload, live, base))
  }

  /** Nobody knows the field: no default, not live, not part of the base. */
  ghost predicate Orphan(defaults: Fields, payload: Fields, live: Fields, base: Fields, k: string) {
    k in payload && k !in READ_ONLY && k !in defaults && k !in live && k !in base
  }

  lemma ApprovedField(defaults: Fields, base: Fields, live: Fields, k: string)
    requires Approved(defaults, base, live)
    ensures !Differs(defaults, base, live, k)
  {
    assert k in Differences(defaults, base, live) <==> Differs(defaults, base, live, k);
  }

  /** What the rollback writes is no different from the policy it restores. */
  lemma RestoreIsOriginal(defaults: Fields, payload: Fields, live: Fields, base: Fields)
    requires Approved(defaults, base, live)
    ensures Differences(defaults, Restore(defaults, payload, live, base), live) == {}
  {
    var r := Restore(defaults, payload, live, base);
    forall k ensures !Differs(defaults, r, live, k) {
      ApprovedField(defaults, base, live, k);
      SameAsItself(Effective(defaults, live, k));
      if k in defaults { SameAsItself(defaults[k]); }
    }
  }

  /** Every known field that was live, every field with a default that the payload
      wrote, and every field that nobody wrote has its old effective value again. */
  lemma KnownFieldsAreExact(defaults: Fields, payload: Fields, live: Fields, base: Fields, k: string)
    requires base != map[] && k !in READ_ONLY
    requires (k in live && (k in defaults || k in payload)) || (k in payload && k in defaults) || (k !in payload && k !in base)
    ensures Effective(defaults, AfterUndo(defaults, payload, live, base), k) == Effective(defaults, live, k)
  {
  }

  lemma UndoneField(defaults: Fields, payload: Fields, live: Fields, base: Fields, k: string)
    requires Approved(defaults, base, live)
    ensures Differs(defaults, Restore(defaults, payload, live, base), AfterUndo(defaults, payload, live, base), k)
       <==> Orphan(defaults, payload, live, base, k)
  {
    var r, after := Restore(defaults, payload, live, base), AfterUndo(defaults, payload, live, base);
    ApprovedField(defaults, base, live, k);
    SameAsItself(Effective(defaults, r, k));
  }

  /** After the undo the policy shows everything that the rollback wrote, and
      nothing else, exactly when no field is an orphan. */
  lemma UndoShowsPayload(defaults: Fields, payload: Fields, live: Fields, base: Fields)
    requires Approved(defaults, base, live)
    ensures Differences(defaults, Restore(defaults, payload, live, base), AfterUndo(defaults, payload, live, base)) == {}
       <==> forall k :: !Orphan(defaults, payload, live, base, k)
  {
    var r, after := Restore(defaults, payload, live, base), AfterUndo(defaults, payload, live, base);
    forall k ensures Differs(defaults, r, after, k) <==> Orphan(defaults, payload, live, base, k) {
      UndoneField(defaults, payload, live, base, k);
    }
    NoneDiffer(defaults, r, after);
  }

  lemma NoneDiffer(defaults: Fields, expected: Fields, actual: Fields)
    ensures Differences(defaults, expected, actual) == {} <==> forall k :: !Differs(defaults, expected, actual, k)
  {
    hide FieldSame;
    if k :| Differs(defaults, expected, actual, k) {
      if k !in defaults.Keys + expected.Keys + actual.Keys {
        SameAsItself(Null);
      } else {
        assert k in Differences(defaults, expected, actual);
      }
    }
  }

  /** The policy passes the checks against the approved base again exactly when no
      field is an orphan. */
  lemma UndoIsApproved(defaults: Fields, payload: Fields, live: Fields, base: Fields)
    requires Approved(defaults, base, live)
    ensures Differences(defaults, base, AfterUndo(defaults, payload, live, base)) == {}
       <==> forall k :: !Orphan(defaults, payload, live, base, k)
  {
    var after := AfterUndo(defaults, payload, live, base);
    forall k ensures Differs(defaults, base, after, k) <==> Orphan(defaults, payload, live, base, k) {
      ApprovedField(defaults, base, live, k);
      if k in base { SameAsItself(base[k]); }
      if k in defaults { SameAsItself(defaults[k]); }
    }
    NoneDiffer(defaults, base, after);
  }

  /** A field that only an older plan owns: it is put back as that plan wrote it,
      and that value does not show what the device showed. */
  ghost predicate Odd(defaults: Fields, payload: Fields, live: Fields, base: Fields, k: string) {
    && k in base && k !in READ_ONLY && !Overlaid(defaults, payload, live, k)
    && (k in defaults || k in live ==> !FieldSame(Effective(defaults, live, k), base[k]))
  }

  /** Against the original itself: no difference exactly when no field is an orphan,
      and every field that only an older plan owns is as that plan wrote it. */
  lemma UndoRoundTrip(defaults: Fields, payload: Fields, live: Fields, base: Fields)
    requires Approved(defaults, base, live) && defaults.Keys !! READ_ONLY
    ensures Differences(defaults, live, AfterUndo(defaults, payload, live, base)) == {}
       <==> forall k :: !Orphan(defaults, payload, live, base, k) && !Odd(defaults, payload, live, base, k)
  {
    var after := AfterUndo(defaults, payload, live, base);
    forall k ensures Differs(defaults, live, after, k) <==> Orphan(defaults, payload, live, base, k) || Odd(defaults, payload, live, base, k) {
      ApprovedField(defaults, base, live, k);
      SameAsItself(Effective(defaults, live, k));
    }
    NoneDiffer(defaults, live, after);
  }

  /** What the planner writes has defaults throughout. Its undo passes the checks
      again, and shows the original as it was unless an older plan owns more. */
  lemma PlannedUndoRoundTrip(defaults: Fields, payload: Fields, live: Fields, base: Fields)
    requires Approved(defaults, base, live) && defaults.Keys !! READ_ONLY && payload.Keys <= defaults.Keys
    ensures Differences(defaults, base, AfterUndo(defaults, payload, live, base)) == {}
    ensures Differences(defaults, live, AfterUndo(defaults, payload, live, base)) == {}
       <==> forall k :: !Odd(defaults, payload, live, base, k)
    ensures base.Keys <= payload.Keys ==> Differences(defaults, live, AfterUndo(defaults, payload, live, base)) == {}
  {
    UndoIsApproved(defaults, payload, live, base);
    UndoRoundTrip(defaults, payload, live, base);
  }

  /** An older plan owned a member list for which there is no default; the device
      shows its members with a helper field, which the undo does not write. */
  lemma OlderPlanFieldChanges()
    ensures var shown := Arr([Obj(map["name" := Text("g"), "q_origin_key" := Text("g")])]);
      var defaults, payload := map["action" := Text("deny")], map["action" := Text("accept")];
      var base, live := map["action" := Text("deny"), "legacy" := Arr([Obj(map["name" := Text("g")])])], map["action" := Text("deny"), "legacy" := shown];
      && Approved(defaults, base, live)
      && "legacy" in Differences(defaults, live, AfterUndo(defaults, payload, live, base))
  {
    var plain, member := Obj(map["name" := Text("g")]), Obj(map["name" := Text("g"), "q_origin_key" := Text("g")]);
    var defaults, payload: Fields := map["action" := Text("deny")], map["action" := Text("accept")];
    var base: Fields, live: Fields := map["action" := Text("deny"), "legacy" := Arr([plain])], map["action" := Text("deny"), "legacy" := Arr([member])];
    assert Same(plain, member) && !Same(member, plain) by {
      assert "q_origin_key" in member.fields;
    }
    OneMatched(plain, member);
    OneMatched(member, plain);
    forall k ensures !Differs(defaults, base, live, k) { }
    NoneDiffer(defaults, base, live);
    assert Differs(defaults, live, AfterUndo(defaults, payload, live, base), "legacy");
  }

  lemma OneMatched(wanted: Json, got: Json)
    ensures Same(Arr([wanted]), Arr([got])) <==> Same(wanted, got)
  {
    var w, u := [wanted], [got];
    var i := FirstMatch(wanted, u);
    assert i == if Same(wanted, got) then 0 else 1 + FirstMatch(wanted, u[1..]);
    assert u[1..] == [] && w[1..] == [] && w[0] == wanted;
    assert Same(Arr(w), Arr(u)) <==> AllMatched(w, u);
    assert AllMatched(w, u) <==> i < 1 && AllMatched(w[1..], u[..i] + u[i + 1..]);
  }
}
