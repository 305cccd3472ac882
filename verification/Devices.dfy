/** The device: an ordered table behind a connection that may break. */
module Devices {
  import opened Options
  import opened PolicyTables
  import opened PolicyOrder

  /** A PUT overwrites only the fields that are sent. */
  datatype Patch = Patch(enabled: Option<bool>, action: Option<Action>, packets: Option<set<Packet>>, other: Option<map<string, string>>)

  function Whole(rule: Rule): Patch {
    Patch(Some(rule.enabled), Some(rule.action), Some(rule.packets), Some(rule.other))
  }

  function StatusOnly(enabled: bool): Patch {
    Patch(Some(enabled), None, None, None)
  }

  function Get<T>(sent: Option<T>, kept: T): T {
    if sent.Some? then sent.value else kept
  }

  function Patched(rule: Rule, patch: Patch): Rule {
    Rule(Get(patch.enabled, rule.enabled), Get(patch.action, rule.action), Get(patch.packets, rule.packets), Get(patch.other, rule.other))
  }

  datatype Write =
    | Create(k: MKey, row: Row)
    | MoveBefore(k: MKey, succ: MKey)
    | MoveAfter(k: MKey, pred: MKey)
    | Put(k: MKey, patch: Patch)
    | Remove(k: MKey)

  /** A write that names an unknown policy, or creates a known one, is refused. */
  function Step(t: Table, w: Write): Table {
    match w
    case Create(k, row) => if k in t.rows then t else Table(t.order + [k], t.rows[k := row])
    case MoveBefore(k, succ) => Table(MovedBefore(t.order, k, succ), t.rows)
    case MoveAfter(k, pred) => Table(MovedAfter(t.order, k, pred), t.rows)
    case Put(k, patch) => if k in t.rows then Table(t.order, t.rows[k := Row(t.rows[k].name, Patched(t.rows[k].rule, patch))]) else t
    case Remove(k) => Table(Without(t.order, k), t.rows - {k})
  }

  /** Either every write is answered, or the connection is lost during the one
      that follows `writes` answered ones. Nobody learns whether that one was
      applied, and nothing reaches the device any more. */
  datatype Link = Stable | LostAfter(writes: nat, applied: bool) | Dead

  class Device {
    var t: Table
    var link: Link
    /** Every table the device has had since it was observed. */
    ghost var history: seq<Table>

    constructor (t: Table, link: Link)
      ensures this.t == t && this.link == link && history == [t]
    {
      this.t, this.link := t, link;
      history := [t];
    }

    method Send(w: Write) returns (ok: bool)
      modifies this
      ensures ok <==> !link.Dead?
      ensures ok ==> t == Step(old(t), w)
      ensures !ok ==> t == old(t) || t == Step(old(t), w)
      ensures history == old(history) + [t] && (EachOnce(old(t)) ==> EachOnce(t))
      ensures (old(link).Stable? ==> ok && link.Stable?) && (old(link).Dead? ==> link.Dead?)
    {
      if EachOnce(t) { StepListsOnce(t, w); }
      ok := link.Stable? || (link.LostAfter? && link.writes > 0);
      if ok || (link.LostAfter? && link.applied) {
        t := Step(t, w);
      }
      if !link.Stable? {
        link := if ok then LostAfter(link.writes - 1, link.applied) else Dead;
      }
      history := history + [t];
    }
  }

  // ---------------------------------------------------------------- reading by name

  /** Every policy is listed once. */
  ghost predicate EachOnce(t: Table) {
    Distinct(t.order) && Elements(t.order) == t.rows.Keys
  }

  predicate Bears(t: Table, k: MKey, name: string) {
    k in t.rows && t.rows[k].name == name
  }

  ghost predicate AtMostOnce(t: Table, name: string) {
    forall k, l :: Bears(t, k, name) && Bears(t, l, name) ==> k == l
  }

  function Matches(order: seq<MKey>, rows: map<MKey, Row>, name: string): seq<MKey> {
    if order == [] then []
    else (if order[0] in rows && rows[order[0]].name == name then [order[0]] else []) + Matches(order[1..], rows, name)
  }

  datatype Lookup = Missing | Found(k: MKey) | Ambiguous

  function Find(t: Table, name: string): Lookup {
    var found := Matches(t.order, t.rows, name);
    if |found| == 0 then Missing else if |found| == 1 then Found(found[0]) else Ambiguous
  }

  lemma {:induction false} NoMatches(order: seq<MKey>, rows: map<MKey, Row>, name: string)
    requires forall k :: k in order && k in rows ==> rows[k].name != name
    ensures Matches(order, rows, name) == []
  {
    if order != [] {
      assert order[0] in order;
      assert forall k :: k in order[1..] ==> k in order;
      NoMatches(order[1..], rows, name);
    }
  }

  lemma {:induction false} OneMatch(order: seq<MKey>, rows: map<MKey, Row>, k: MKey)
    requires Distinct(order) && k in order && k in rows
    requires forall l :: l in order && l in rows && l != k ==> rows[l].name != rows[k].name
    ensures Matches(order, rows, rows[k].name) == [k]
  {
    TailDistinct(order);
    if order[0] == k {
      NoMatches(order[1..], rows, rows[k].name);
    } else {
      OneMatch(order[1..], rows, k);
    }
  }

  lemma {:induction false} MatchesAre(order: seq<MKey>, rows: map<MKey, Row>, name: string)
    requires Distinct(order)
    ensures Distinct(Matches(order, rows, name))
    ensures forall k :: k in Matches(order, rows, name) <==> k in order && k in rows && rows[k].name == name
  {
    if order != [] {
      TailDistinct(order);
      MatchesAre(order[1..], rows, name);
      var rest := Matches(order[1..], rows, name);
      assert forall k :: k in order <==> k == order[0] || k in order[1..];
      if order[0] in rows && rows[order[0]].name == name {
        ConsDistinct(order[0], rest);
        assert Matches(order, rows, name) == [order[0]] + rest;
      } else {
        assert Matches(order, rows, name) == rest;
      }
    }
  }

  /** Looking a policy up by name finds the one that bears it. */
  lemma FindIs(t: Table, name: string)
    requires EachOnce(t)
    ensures Find(t, name) == Missing <==> forall k :: !Bears(t, k, name)
    ensures forall k :: Find(t, name) == Found(k) <==> Bears(t, k, name) && AtMostOnce(t, name)
  {
    var found := Matches(t.order, t.rows, name);
    MatchesAre(t.order, t.rows, name);
    InElements(t.order);
    forall k ensures k in found <==> Bears(t, k, name) { assert k in t.rows ==> k in Elements(t.order); }
    hide Matches;
    if |found| >= 1 { assert found[0] in found; }
    if |found| >= 2 {
      assert found[1] in found && Apart(found, 0, 1);
      assert Bears(t, found[0], name) && Bears(t, found[1], name);
    }
  }

  /** Every write keeps the listing of the table. */
  lemma StepListsOnce(t: Table, w: Write)
    requires EachOnce(t)
    ensures EachOnce(Step(t, w))
  {
    hide Pos, Without, MovedBefore, MovedAfter;
    InElements(t.order);
    InElements(Step(t, w).order);
    match w
    case Create(k, row) => if k !in t.rows { assert k !in Elements(t.order); LongerIsDistinct(t.order, k); }
    case MoveBefore(k, succ) => MovedBeforeKeeps(t.order, k, succ);
    case MoveAfter(k, pred) => MovedAfterKeeps(t.order, k, pred);
    case Put(k, patch) =>
    case Remove(k) => if k in t.order { WithoutFacts(t.order, k); } else { AbsentStays(t.order, k); }
  }

  lemma LongerIsDistinct(s: seq<MKey>, k: MKey)
    requires Distinct(s) && k !in s
    ensures Distinct(s + [k])
  {
    forall i: nat, j: nat ensures Apart(s + [k], i, j) { assert Apart(s, i, j); }
  }

  lemma AbsentStays(s: seq<MKey>, k: MKey)
    requires k !in s
    ensures Without(s, k) == s
  {
  }
}
