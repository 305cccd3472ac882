/** A reviewed set of policy commands bound to one snapshot of the device table:
    which tables its run passes through, and what they accept. */
module DeploymentPlans {
  import opened Options
  import opened PolicyTables
  import opened PolicyOrder
  import opened Repositioning

  datatype Operation = Upsert | Delete

  datatype Command = Command(operation: Operation, name: string, payload: Rule, insertBefore: string)

  /** What the all-target snapshot records about one command. `mkey`, `restore`
      and the two neighbours are meaningful only when the policy existed. */
  datatype Snapshot = Snapshot(command: Command, existed: bool, mkey: MKey, restore: Rule,
                               beforeMKey: Option<MKey>, afterMKey: Option<MKey>, insertBeforeMKey: Option<MKey>)

  /** `base` is the table the snapshot saw, `ids` the keys the device will give
      to created policies. The commands list the `ups` UPSERTs from the bottom of
      the reviewed block to its top, then the DELETEs. */
  datatype Plan = Plan(base: Table, snaps: seq<Snapshot>, ids: seq<MKey>, ups: nat, anchor: MKey)

  function Key(pl: Plan, i: nat): MKey
    requires i < |pl.snaps| == |pl.ids|
  {
    if pl.snaps[i].existed then pl.snaps[i].mkey else pl.ids[i]
  }

  function Keys(pl: Plan): (ks: seq<MKey>)
    requires |pl.snaps| == |pl.ids|
    ensures |ks| == |pl.snaps| && forall i :: 0 <= i < |ks| ==> ks[i] == Key(pl, i)
  {
    seq(|pl.snaps|, i requires 0 <= i < |pl.snaps| => Key(pl, i))
  }

  function Name(pl: Plan, i: nat): string
    requires i < |pl.snaps|
  {
    pl.snaps[i].command.name
  }

  function Payload(pl: Plan, i: nat): Rule
    requires i < |pl.snaps|
  {
    pl.snaps[i].command.payload
  }

  predicate IsNew(pl: Plan, i: nat) {
    i < pl.ups && i < |pl.snaps| && !pl.snaps[i].existed
  }

  // ---------------------------------------------------------------- well-formed plans

  predicate NamesApart(rows: map<MKey, Row>, k: MKey, l: MKey) {
    k in rows && l in rows && k != l && rows[k].name != "" ==> rows[k].name != rows[l].name
  }

  /** Keys are unique, and so are names; a device-local policy may have no name. */
  ghost predicate TableOk(t: Table) {
    && Distinct(t.order) && Elements(t.order) == t.rows.Keys
    && forall k, l :: NamesApart(t.rows, k, l)
  }

  /** What the snapshot has checked about one command. */
  ghost predicate SnapshotOk(pl: Plan, i: nat) {
    i < |pl.snaps| == |pl.ids| ==>
      var s := pl.snaps[i];
      && s.command.name != ""
      && (s.command.operation == Upsert <==> i < pl.ups)
      && (i < pl.ups ==> s.command.payload.enabled)
      && pl.ids[i] !in pl.base.rows
      && (if s.existed then
            && s.mkey in pl.base.rows && pl.base.rows[s.mkey] == Row(s.command.name, s.restore)
            && s.restore.enabled
            && s.beforeMKey == Below(pl.base.order, s.mkey) && s.afterMKey == AboveOf(pl.base.order, s.mkey)
            && (i >= pl.ups ==> s.restore == s.command.payload)
            && !UnsafeDenyMatchChange(s)
          else
            forall k :: k in pl.base.rows ==> pl.base.rows[k].name != s.command.name)
  }

  /** The refusal of an in-place match change of a DENY policy. */
  predicate UnsafeDenyMatchChange(s: Snapshot) {
    && s.command.operation == Upsert && s.restore.action == Deny && s.command.payload.action == Deny
    && s.restore.packets != s.command.payload.packets
  }

  predicate CommandsApart(pl: Plan, i: nat, j: nat) {
    i < |pl.snaps| == |pl.ids| && j < |pl.snaps| && i != j ==>
      Name(pl, i) != Name(pl, j) && pl.ids[i] != pl.ids[j]
  }

  /** Every UPSERT names the one below it; the lowest names the anchor. The key
      of that successor is bound when the snapshot already sees it. */
  predicate Chained(pl: Plan, i: nat) {
    i < pl.ups && i < |pl.snaps| && pl.anchor in pl.base.rows ==>
      && pl.snaps[i].command.insertBefore == (if i == 0 then pl.base.rows[pl.anchor].name else Name(pl, i - 1))
      && pl.snaps[i].insertBeforeMKey == (if i == 0 then Some(pl.anchor)
                                          else if pl.snaps[i - 1].existed then Some(pl.snaps[i - 1].mkey) else None)
  }

  predicate NotTheAnchor(pl: Plan, i: nat) {
    i < |pl.snaps| && pl.ups > 0 && pl.snaps[i].existed ==> pl.snaps[i].mkey != pl.anchor
  }

  function DeletedKeys(pl: Plan): set<MKey> {
    set i | pl.ups <= i < |pl.snaps| && pl.snaps[i].existed :: pl.snaps[i].mkey
  }

  predicate PresentAt(pl: Plan, i: nat, m: nat) {
    i < pl.ups && i < |pl.snaps| && (i < m || pl.snaps[i].existed)
  }

  /** The policy that stands next below UPSERT `i` once the first `m` are created. */
  function NextPresent(pl: Plan, i: nat, m: nat): MKey
    requires i <= |pl.snaps| == |pl.ids|
  {
    if i == 0 then pl.anchor
    else if PresentAt(pl, i - 1, m) then Key(pl, i - 1)
    else NextPresent(pl, i - 1, m)
  }

  /** The order check of the snapshot: leaving out the policies to be deleted,
      every existing policy stands directly before its effective successor. */
  predicate InReviewedOrder(pl: Plan, view: seq<MKey>, i: nat, m: nat) {
    |pl.snaps| == |pl.ids| && PresentAt(pl, i, m) ==> Linked(view, Key(pl, i), NextPresent(pl, i, m))
  }

  function View(order: seq<MKey>, gone: set<MKey>): seq<MKey> {
    Only(order, Elements(order) - gone)
  }

  /** The block of managed policies is contiguous and ends at the anchor. */
  ghost predicate BlockInOrder(pl: Plan, order: seq<MKey>, m: nat) {
    forall i: nat :: InReviewedOrder(pl, View(order, DeletedKeys(pl)), i, m)
  }

  ghost predicate PlanOk(pl: Plan) {
    && |pl.snaps| == |pl.ids| && pl.ups <= |pl.snaps|
    && TableOk(pl.base)
    && (pl.ups > 0 ==> pl.anchor in pl.base.rows && pl.base.rows[pl.anchor].name != "")
    && (forall i: nat :: SnapshotOk(pl, i))
    && (forall i: nat, j: nat :: CommandsApart(pl, i, j))
    && (forall i: nat :: Chained(pl, i))
    && (forall i: nat :: NotTheAnchor(pl, i))
    && BlockInOrder(pl, pl.base.order, 0)
  }

  // ---------------------------------------------------------------- keys of a plan

  lemma KeysDistinct(pl: Plan)
    requires PlanOk(pl)
    ensures Distinct(Keys(pl))
  {
    forall i: nat, j: nat ensures Apart(Keys(pl), i, j) {
      if i < j < |pl.snaps| {
        assert CommandsApart(pl, i, j) && SnapshotOk(pl, i) && SnapshotOk(pl, j);
      }
    }
  }

  /** The command that owns a key. */
  lemma KeyIndex(pl: Plan, i: nat)
    requires PlanOk(pl) && i < |pl.snaps|
    ensures Pos(Keys(pl), Key(pl, i)) == i && Key(pl, i) in Keys(pl)
  {
    KeysDistinct(pl);
    assert Keys(pl)[i] == Key(pl, i);
    PosIs(Keys(pl), i);
  }

  lemma KeysApart(pl: Plan, i: nat, j: nat)
    requires PlanOk(pl) && i < |pl.snaps| && j < |pl.snaps| && i != j
    ensures Key(pl, i) != Key(pl, j)
  {
    KeyIndex(pl, i);
    KeyIndex(pl, j);
  }

  function NewKeys(pl: Plan, m: nat): set<MKey>
    requires |pl.snaps| == |pl.ids|
  {
    set i: nat | i < m && IsNew(pl, i) :: pl.ids[i]
  }

  /** A new policy is created disabled; it owns key `k`. */
  function PreparedRow(pl: Plan, k: MKey): Row
    requires |pl.snaps| == |pl.ids| && k in Keys(pl)
  {
    var i := Pos(Keys(pl), k);
    Row(Name(pl, i), Payload(pl, i).(enabled := false))
  }

  /** The rows once the first `m` UPSERTs are prepared. */
  function Prepared(pl: Plan, m: nat): map<MKey, Row>
    requires |pl.snaps| == |pl.ids|
  {
    map k | k in pl.base.rows.Keys + NewKeys(pl, m) && (k in pl.base.rows || k in Keys(pl))
      :: if k in pl.base.rows then pl.base.rows[k] else PreparedRow(pl, k)
  }

  predicate Upserts(pl: Plan, k: MKey)
    requires |pl.snaps| == |pl.ids|
  {
    Pos(Keys(pl), k) < pl.ups && k in Keys(pl)
  }

  /** The rows the plan asks for. */
  function Final(pl: Plan): map<MKey, Row>
    requires |pl.snaps| == |pl.ids|
  {
    map k | k in pl.base.rows.Keys + NewKeys(pl, pl.ups) && k !in DeletedKeys(pl) && (k in pl.base.rows || Upserts(pl, k))
      :: if Upserts(pl, k) then Row(Name(pl, Pos(Keys(pl), k)), Payload(pl, Pos(Keys(pl), k))) else pl.base.rows[k]
  }

  /** The order of the table once the first `m` UPSERTs are prepared: each new
      policy is appended by the device and moved before its successor. */
  function FullOrder(pl: Plan, m: nat): seq<MKey>
    requires |pl.snaps| == |pl.ids|
  {
    if m == 0 then pl.base.order
    else if IsNew(pl, m - 1) then MovedBefore(FullOrder(pl, m - 1) + [pl.ids[m - 1]], pl.ids[m - 1], NextPresent(pl, m - 1, m - 1))
    else FullOrder(pl, m - 1)
  }

  function PreparedTable(pl: Plan, m: nat): Table
    requires |pl.snaps| == |pl.ids|
  {
    Table(FullOrder(pl, m), Prepared(pl, m))
  }

  /** The table between creating UPSERT `m` and moving it to its place. */
  function UnplacedTable(pl: Plan, m: nat): Table
    requires m < |pl.snaps| == |pl.ids|
  {
    Table(FullOrder(pl, m) + [pl.ids[m]], Prepared(pl, m + 1))
  }

  /** The table once the changes of the keys in `done` are made. */
  function StageTable(pl: Plan, done: set<MKey>): Table
    requires |pl.snaps| == |pl.ids|
  {
    var rows := Mix(Prepared(pl, pl.ups), Final(pl), done);
    Table(Only(FullOrder(pl, pl.ups), rows.Keys), rows)
  }

  function FinalTable(pl: Plan): Table
    requires |pl.snaps| == |pl.ids|
  {
    Table(Only(FullOrder(pl, pl.ups), Final(pl).Keys), Final(pl))
  }

  /** DENYs are finalised and obsolete ACCEPTs deleted, then ACCEPTs are
      finalised, then obsolete DENYs deleted. */
  function StageOf(pl: Plan, i: nat): Stage
    requires i < |pl.snaps|
  {
    if i < pl.ups then (if Payload(pl, i).action == Deny then Restricting else Crossing)
    else (if Payload(pl, i).action == Deny then Permitting else Restricting)
  }

  function Stages(pl: Plan): map<MKey, Stage>
    requires |pl.snaps| == |pl.ids|
  {
    map k | k in Keys(pl) :: StageOf(pl, Pos(Keys(pl), k))
  }

  // ---------------------------------------------------------------- looking rows up

  lemma PreparedAt(pl: Plan, m: nat, k: MKey)
    requires PlanOk(pl)
    ensures k in pl.base.rows ==> k in Prepared(pl, m) && Prepared(pl, m)[k] == pl.base.rows[k]
    ensures k in Prepared(pl, m) <==> k in pl.base.rows || k in NewKeys(pl, m)
  {
    if k in NewKeys(pl, m) {
      var i: nat :| i < m && IsNew(pl, i) && pl.ids[i] == k;
      KeyIndex(pl, i);
    }
  }

  lemma PreparedNew(pl: Plan, m: nat, i: nat)
    requires PlanOk(pl) && IsNew(pl, i)
    ensures pl.ids[i] in Prepared(pl, m) <==> i < m
    ensures i < m ==> Prepared(pl, m)[pl.ids[i]] == Row(Name(pl, i), Payload(pl, i).(enabled := false))
    ensures pl.ids[i] !in pl.base.rows
  {
    assert SnapshotOk(pl, i);
    KeyIndex(pl, i);
    PreparedAt(pl, m, pl.ids[i]);
    if pl.ids[i] in NewKeys(pl, m) {
      var j: nat :| j < m && IsNew(pl, j) && pl.ids[j] == pl.ids[i];
      assert CommandsApart(pl, i, j);
    }
  }

  lemma FinalOfUpsert(pl: Plan, i: nat)
    requires PlanOk(pl) && i < pl.ups
    ensures Key(pl, i) in Final(pl) && Final(pl)[Key(pl, i)] == Row(Name(pl, i), Payload(pl, i))
  {
    KeyIndex(pl, i);
    assert SnapshotOk(pl, i);
    if Key(pl, i) in DeletedKeys(pl) {
      var j :| pl.ups <= j < |pl.snaps| && pl.snaps[j].existed && pl.snaps[j].mkey == Key(pl, i);
      KeyIndex(pl, j);
    }
    if IsNew(pl, i) { assert pl.ids[i] in NewKeys(pl, pl.ups); }
  }

  lemma FinalOfDelete(pl: Plan, i: nat)
    requires PlanOk(pl) && pl.ups <= i < |pl.snaps| && pl.snaps[i].existed
    ensures Key(pl, i) in DeletedKeys(pl) && Key(pl, i) !in Final(pl)
    ensures Key(pl, i) in pl.base.rows && pl.base.rows[Key(pl, i)] == Row(Name(pl, i), Payload(pl, i))
  {
    assert SnapshotOk(pl, i);
  }

  lemma FinalOfOther(pl: Plan, k: MKey)
    requires PlanOk(pl) && k !in Keys(pl)
    ensures k in Final(pl) <==> k in pl.base.rows
    ensures k in pl.base.rows ==> Final(pl)[k] == pl.base.rows[k]
  {
    if k in NewKeys(pl, pl.ups) {
      var i: nat :| i < pl.ups && IsNew(pl, i) && pl.ids[i] == k;
      KeyIndex(pl, i);
    }
    if k in DeletedKeys(pl) {
      var j :| pl.ups <= j < |pl.snaps| && pl.snaps[j].existed && pl.snaps[j].mkey == k;
      KeyIndex(pl, j);
    }
  }
}
