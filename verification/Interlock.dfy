/** Publication and deployment exclude each other through one lease lock, and a
    revision is published only over a deployed predecessor. */
module Interlock {
  import opened Options
  import opened Texts

  /** How long a lock stands before others may take it over. */
  const LEASE: nat := 3600

  /** The targets a stored plan has commands for, and those it may execute on. */
  datatype StoredPlan = StoredPlan(hash: string, commandTargets: set<string>, executable: set<string>)

  /** Publications from before the reviewed workflow carry no plan. */
  datatype Publication = Publication(version: string, plan: Option<StoredPlan>)

  /** One row of the deployment protocol; `stamp` is taken before the lock is. */
  datatype Run = Run(id: string, revision: string, planHash: string, targets: seq<string>, stamp: nat)

  datatype Status = Running | Succeeded | Failed

  datatype Lock = Lock(id: string, acquired: nat)

  datatype Operation = Deploying | Publishing | Published

  /** An operation under way, and when its lease began. */
  datatype Holder = Holder(operation: Operation, acquired: nat)

  // ---------------------------------------------------------------- the newest run

  predicate Earlier(r: Run, q: Run) {
    r.stamp < q.stamp || (r.stamp == q.stamp && TextLess(r.id, q.id))
  }

  function Inserted(runs: seq<Run>, r: Run): seq<Run> {
    if runs == [] then [r]
    else if Earlier(r, runs[|runs| - 1]) then Inserted(runs[..|runs| - 1], r) + [runs[|runs| - 1]]
    else runs + [r]
  }

  /** The order in which the protocol is read back: by stamp, then by id. */
  function ByStamp(runs: seq<Run>): seq<Run> {
    if runs == [] then [] else Inserted(ByStamp(runs[..|runs| - 1]), runs[|runs| - 1])
  }

  /** The rows of one revision and plan. */
  function Rows(log: seq<Run>, version: string, hash: string): seq<Run> {
    if log == [] then []
    else
      var last := log[|log| - 1];
      Rows(log[..|log| - 1], version, hash) + if last.revision == version && last.planHash == hash then [last] else []
  }

  /** The last run in a listing that includes the target. */
  function LastWith(runs: seq<Run>, target: string): Option<Run> {
    if runs == [] then None
    else if target in runs[|runs| - 1].targets then Some(runs[|runs| - 1])
    else LastWith(runs[..|runs| - 1], target)
  }

  lemma {:induction false} InsertedMembers(runs: seq<Run>, r: Run)
    ensures forall q :: q in Inserted(runs, r) <==> q in runs || q == r
  {
    if runs != [] {
      assert runs == runs[..|runs| - 1] + [runs[|runs| - 1]];
      InsertedMembers(runs[..|runs| - 1], r);
    }
  }

  predicate InStampOrder(runs: seq<Run>) {
    forall i, j :: 0 <= i < j < |runs| ==> !Earlier(runs[j], runs[i])
  }

  lemma EarlierOrder(r: Run, q: Run, s: Run)
    ensures !(Earlier(r, q) && Earlier(q, r))
    ensures Earlier(r, q) && !Earlier(s, q) ==> Earlier(r, s)
  {
    TextOrder(r.id, q.id);
    TextOrder(s.id, q.id);
    if TextLess(r.id, q.id) && TextLess(q.id, s.id) { TextTrans(r.id, q.id, s.id); }
  }

  lemma {:induction false} InsertedOrder(runs: seq<Run>, r: Run)
    requires InStampOrder(runs)
    ensures InStampOrder(Inserted(runs, r))
  {
    if runs != [] {
      var init, last := runs[..|runs| - 1], runs[|runs| - 1];
      assert runs == init + [last];
      if Earlier(r, last) {
        InsertedOrder(init, r);
        InsertedMembers(init, r);
        var p := Inserted(init, r);
        forall i | 0 <= i < |p| ensures !Earlier(last, p[i]) {
          assert p[i] in p;
          EarlierOrder(r, last, last);
          if p[i] != r { var l :| 0 <= l < |init| && init[l] == p[i]; assert runs[l] == p[i]; }
        }
      } else {
        forall i | 0 <= i < |runs| ensures !Earlier(r, runs[i]) { EarlierOrder(r, runs[i], last); }
      }
    }
  }

  lemma {:induction false} ByStampFacts(runs: seq<Run>)
    ensures InStampOrder(ByStamp(runs)) && forall q :: q in ByStamp(runs) <==> q in runs
  {
    if runs != [] {
      assert runs == runs[..|runs| - 1] + [runs[|runs| - 1]];
      ByStampFacts(runs[..|runs| - 1]);
      InsertedOrder(ByStamp(runs[..|runs| - 1]), runs[|runs| - 1]);
      InsertedMembers(ByStamp(runs[..|runs| - 1]), runs[|runs| - 1]);
    }
  }

  lemma {:induction false} LastWithFacts(runs: seq<Run>, target: string)
    ensures LastWith(runs, target).None? ==> forall q :: q in runs ==> target !in q.targets
    ensures LastWith(runs, target).Some? ==> LastWith(runs, target).value in runs && target in LastWith(runs, target).value.targets
    ensures InStampOrder(runs) && LastWith(runs, target).Some? ==>
      forall q :: q in runs && target in q.targets && q != LastWith(runs, target).value ==> !Earlier(LastWith(runs, target).value, q)
  {
    if runs != [] {
      var init, last := runs[..|runs| - 1], runs[|runs| - 1];
      assert forall q :: q in runs <==> q in init || q == last by { assert runs == init + [last]; }
      LastWithFacts(init, target);
      if InStampOrder(runs) && target in last.targets {
        forall q | q in init ensures !Earlier(last, q) {
          var i :| 0 <= i < |init| && init[i] == q;
          assert runs[i] == q;
        }
      }
    }
  }

  /** How the protocol is read: the last row in stamp order decides. */
  predicate ReadsDeployed(log: seq<Run>, status: map<string, Status>, version: string, hash: string, target: string) {
    var newest := LastWith(ByStamp(Rows(log, version, hash)), target);
    newest.Some? && newest.value.id in status && status[newest.value.id] == Succeeded
  }

  /** A run of this revision and plan that includes the target. */
  ghost predicate Concerns(log: seq<Run>, version: string, hash: string, target: string, r: Run) {
    r in log && r.revision == version && r.planHash == hash && target in r.targets
  }

  /** The run that includes the target and carries the latest stamp has succeeded. */
  ghost predicate Deployed(log: seq<Run>, status: map<string, Status>, version: string, hash: string, target: string) {
    exists r ::
      && Concerns(log, version, hash, target, r) && r.id in status && status[r.id] == Succeeded
      && forall q :: Concerns(log, version, hash, target, q) && q != r ==> q.stamp < r.stamp || (q.stamp == r.stamp && TextLess(q.id, r.id))
  }

  ghost predicate IdsApart(log: seq<Run>) {
    forall q, r :: q in log && r in log && q.id == r.id ==> q == r
  }

  /** Reading all rows in stamp order is the same as looking at the newest run. */
  lemma NewestDecides(log: seq<Run>, status: map<string, Status>, version: string, hash: string, target: string)
    requires IdsApart(log)
    ensures ReadsDeployed(log, status, version, hash, target) <==> Deployed(log, status, version, hash, target)
  {
    var rows := Rows(log, version, hash);
    RowsAre(log, version, hash);
    ByStampFacts(rows);
    LastWithFacts(ByStamp(rows), target);
    var newest := LastWith(ByStamp(rows), target);
    if newest.Some? {
      forall q | Concerns(log, version, hash, target, q) && q != newest.value ensures Earlier(q, newest.value) {
        TextOrder(q.id, newest.value.id);
      }
      assert Concerns(log, version, hash, target, newest.value);
      forall r | Concerns(log, version, hash, target, r) && r != newest.value ensures !Earlier(newest.value, r) { }
    }
  }

  function Required(plan: StoredPlan): set<string> {
    plan.commandTargets * plan.executable
  }

  /** Every executable target that the plan has commands for is deployed. */
  ghost predicate Gate(log: seq<Run>, status: map<string, Status>, p: Publication) {
    p.plan.Some? ==> forall t :: t in p.plan.value.commandTargets && t in p.plan.value.executable ==>
      Deployed(log, status, p.version, p.plan.value.hash, t)
  }

  // ---------------------------------------------------------------- stamps and locks

  /** The run that took the lock last, among those that include the target. */
  ghost function LastLocked(log: seq<Run>, version: string, hash: string, target: string): Option<Run> {
    LastWith(Rows(log, version, hash), target)
  }

  ghost predicate SucceededLast(log: seq<Run>, status: map<string, Status>, version: string, hash: string, target: string) {
    var last := LastLocked(log, version, hash, target);
    last.Some? && last.value.id in status && status[last.value.id] == Succeeded
  }

  /** The run that took the lock last also carries the latest stamp. */
  ghost predicate LockedIsNewest(log: seq<Run>, version: string, hash: string, target: string) {
    var locked := LastLocked(log, version, hash, target);
    locked.None? || forall q :: Concerns(log, version, hash, target, q) && q != locked.value ==>
      q.stamp < locked.value.stamp || (q.stamp == locked.value.stamp && TextLess(q.id, locked.value.id))
  }

  /** The gate decides by the run that really came last exactly when all the others
      were stamped before it. */
  lemma StampsMustFollowLocks(log: seq<Run>, version: string, hash: string, target: string)
    requires IdsApart(log)
    ensures (forall status :: Deployed(log, status, version, hash, target) <==> SucceededLast(log, status, version, hash, target))
       <==> LockedIsNewest(log, version, hash, target)
  {
    NewestIsLocked(log, version, hash, target);
    LookedUp(log, version, hash, target);
    forall status ensures Deployed(log, status, version, hash, target) <==> ReadsDeployed(log, status, version, hash, target) {
      NewestDecides(log, status, version, hash, target);
    }
    hide Deployed, IdsApart, LockedIsNewest, Rows, ByStamp, LastWith, LastLocked;
    var stamped, locked := LastWith(ByStamp(Rows(log, version, hash)), target), LastLocked(log, version, hash, target);
    if stamped != locked {
      var status := map[stamped.value.id := Succeeded];
      assert ReadsDeployed(log, status, version, hash, target) && !SucceededLast(log, status, version, hash, target);
    }
  }

  lemma LookedUp(log: seq<Run>, version: string, hash: string, target: string)
    ensures var stamped, locked := LastWith(ByStamp(Rows(log, version, hash)), target), LastLocked(log, version, hash, target);
      && (stamped.Some? <==> locked.Some?) && (stamped.Some? ==> stamped.value in log && locked.value in log)
  {
    var rows := Rows(log, version, hash);
    RowsAre(log, version, hash);
    ByStampFacts(rows);
    LastWithFacts(ByStamp(rows), target);
    LastWithFacts(rows, target);
    hide Rows, ByStamp, LastWith, Earlier;
  }

  lemma NewestIsLocked(log: seq<Run>, version: string, hash: string, target: string)
    requires IdsApart(log)
    ensures LastWith(ByStamp(Rows(log, version, hash)), target) == LastLocked(log, version, hash, target) <==> LockedIsNewest(log, version, hash, target)
  {
    var rows := Rows(log, version, hash);
    RowsAre(log, version, hash);
    ByStampFacts(rows);
    LastWithFacts(ByStamp(rows), target);
    LastWithFacts(rows, target);
    var stamped, locked := LastWith(ByStamp(rows), target), LastLocked(log, version, hash, target);
    if locked.Some? {
      EarlierOrder(stamped.value, locked.value, locked.value);
      forall q | q in rows && q != locked.value ensures Earlier(q, locked.value) || Earlier(locked.value, q) { TextOrder(q.id, locked.value.id); }
    }
  }

  lemma {:induction false} RowsAre(log: seq<Run>, version: string, hash: string)
    ensures forall q :: q in Rows(log, version, hash) <==> q in log && q.revision == version && q.planHash == hash
  {
    if log != [] {
      assert log == log[..|log| - 1] + [log[|log| - 1]];
      RowsAre(log[..|log| - 1], version, hash);
    }
  }

  lemma TwoRuns(second: Run, first: Run)
    requires second.revision == first.revision && second.planHash == first.planHash && Earlier(first, second)
    requires second.targets == first.targets == ["t"]
    ensures var rows := Rows([second, first], first.revision, first.planHash);
      LastWith(ByStamp(rows), "t") == Some(second) && LastWith(rows, "t") == Some(first)
  {
    var log, v, h := [second, first], first.revision, first.planHash;
    assert log[..1] == [second] && [second][..0] == [];
    assert Rows([], v, h) == [] && Rows([second], v, h) == [second] && Rows(log, v, h) == log;
    assert ByStamp([]) == [] && ByStamp([second]) == [second];
    assert Inserted([second], first) == [first, second];
    assert ByStamp(log) == [first, second];
  }

  // ---------------------------------------------------------------- the database

  /** A superseded revision was deployed. */
  ghost predicate GateAt(log: seq<Run>, status: map<string, Status>, publications: seq<Publication>, k: nat) {
    k + 1 < |publications| ==> Gate(log, status, publications[k])
  }

  predicate VersionsApart(publications: seq<Publication>, i: nat, j: nat) {
    i < j < |publications| ==> publications[i].version != publications[j].version
  }

  /** Nobody holds the lock, or the holder's lease has run out. */
  predicate Free(lock: Option<Lock>, clock: nat) {
    lock.None? || lock.value.acquired + LEASE < clock
  }

  class Database {
    var clock: nat
    var lock: Option<Lock>
    /** From the oldest to the latest. */
    var publications: seq<Publication>
    /** In the order in which runs took the lock. */
    var log: seq<Run>
    var status: map<string, Status>
    /** The operations under way. */
    ghost var active: map<string, Holder>

    /** At most one operation is under way, it holds the lock, and its lease has
        not run out. Every superseded planned revision was deployed. */
    ghost predicate Valid()
      reads this
    {
      && (active == map[] || (lock.Some? && active.Keys == {lock.value.id} && active[lock.value.id].acquired == lock.value.acquired
                              && lock.value.acquired <= clock <= lock.value.acquired + LEASE))
      && (forall i: nat, j: nat :: VersionsApart(publications, i, j))
      && (forall r :: r in log ==> r.id in status)
      && IdsApart(log)
      && (forall k: nat :: GateAt(log, status, publications, k))
      && (forall id :: id in active && active[id].operation == Publishing && publications != [] ==> Gate(log, status, publications[|publications| - 1]))
      && (forall r :: r in log && r.id in active && active[r.id].operation == Deploying ==>
            publications != [] && r.revision == publications[|publications| - 1].version)
    }

    constructor (clock: nat)
      ensures Valid() && active == map[] && publications == [] && log == []
      ensures lock == None && status == map[] && this.clock == clock
    {
      this.clock, lock, publications, log, status, active := clock, None, [], [], map[], map[];
    }

    /** Publication and deployment never overlap, nor do two of either. */
    lemma NeverTwo(id1: string, id2: string)
      requires Valid() && id1 in active && id2 in active
      ensures id1 == id2
    {
      assert id1 in active.Keys && id2 in active.Keys;
    }

    /** Time passes; whoever holds the lock finishes within the lease. */
    method Tick()
      requires Valid() && forall id :: id in active ==> clock < active[id].acquired + LEASE
      modifies this`clock
      ensures Valid() && clock == old(clock) + 1
    {
      clock := clock + 1;
    }

    method StartDeployment(run: Run) returns (ok: bool)
      requires Valid() && run.id !in status && run.id !in active && run.stamp <= clock <= run.stamp + LEASE
      modifies this
      ensures Valid() && clock == old(clock) && publications == old(publications)
      ensures ok <==> publications != [] && publications[|publications| - 1].version == run.revision
                      && (old(lock).Some? ==> clock - old(lock).value.acquired > 3600)
      ensures ok ==> lock == Some(Lock(run.id, run.stamp))
      ensures ok ==> old(active) == map[] && active == map[run.id := Holder(Deploying, run.stamp)]
                     && log == old(log) + [run] && status == old(status)[run.id := Running]
      ensures !ok ==> active == old(active) && lock == old(lock) && log == old(log) && status == old(status)
    {
      ok := false;
      if publications != [] && publications[|publications| - 1].version == run.revision {
        if Free(lock, clock) {
          assert active == map[];
          ghost var log0, status0 := log, status;
          lock := Some(Lock(run.id, run.stamp));
          log := log + [run];
          status := status[run.id := Running];
          active := map[run.id := Holder(Deploying, run.stamp)];
          forall k: nat ensures GateAt(log, status, publications, k) {
            if k + 1 < |publications| {
              assert GateAt(log0, status0, publications, k) && VersionsApart(publications, k, |publications| - 1);
              LaterRunKeepsGate(log0, status0, publications[k], run);
            }
          }
          ok := true;
        }
      }
    }

    /** Records how a run ended. */
    method FinishDeployment(id: string, outcome: Status) returns (ok: bool)
      requires Valid() && id in active && active[id].operation == Deploying
      modifies this`status
      ensures Valid()
      ensures ok <==> id in old(status)
      ensures status == if ok then old(status)[id := outcome] else old(status)
    {
      ok := id in status;
      if ok {
        ghost var log0, status0 := log, status;
        status := status[id := outcome];
        forall k: nat ensures GateAt(log, status, publications, k) {
          if k + 1 < |publications| {
            assert GateAt(log0, status0, publications, k) && VersionsApart(publications, k, |publications| - 1);
            OtherStatusKeepsGate(log, status0, publications[k], id, outcome);
          }
        }
        forall other | other in active ensures other == id { NeverTwo(id, other); }
      }
    }

    method Release(id: string)
      requires Valid() && id in active
      modifies this`lock, this`active
      ensures Valid() && active == map[]
      ensures lock == if old(lock).Some? && old(lock).value.id == id then None else old(lock)
    {
      if lock.Some? && lock.value.id == id {
        lock := None;
      }
      active := active - {id};
      assert active.Keys == {};
    }

    /** An operation ends, but its lock stays behind: giving it back failed. */
    method Abandon(id: string)
      requires Valid() && id in active
      modifies this`active
      ensures Valid() && active == map[]
    {
      active := active - {id};
      assert active.Keys == {};
    }

    /** Whether the latest publication, if it carries a plan, is deployed. */
    method LatestIsDeployed() returns (ok: bool)
      requires IdsApart(log)
      ensures ok <==> publications == [] || Gate(log, status, publications[|publications| - 1])
    {
      ok := true;
      if publications != [] && publications[|publications| - 1].plan.Some? {
        var version, plan := publications[|publications| - 1].version, publications[|publications| - 1].plan.value;
        var required := Required(plan);
        var rows := ByStamp(Rows(log, version, plan.hash));
        var deployed := ReadRows(rows);
        var todo := required;
        while todo != {}
          invariant todo <= required
          invariant ok <==> forall t :: t in required - todo ==> ReadsDeployed(log, status, version, plan.hash, t)
          decreases |todo|
        {
          var t :| t in todo;
          if t !in deployed || !deployed[t] { ok := false; }
          assert required - (todo - {t}) == required - todo + {t};
          todo := todo - {t};
        }
        assert required - todo == required;
        forall t ensures ReadsDeployed(log, status, version, plan.hash, t) <==> Deployed(log, status, version, plan.hash, t) {
          NewestDecides(log, status, version, plan.hash, t);
        }
      }
    }

    /** Later rows overwrite earlier ones, target by target. */
    method ReadRows(rows: seq<Run>) returns (deployed: map<string, bool>)
      ensures forall t :: t in deployed <==> LastWith(rows, t).Some?
      ensures forall t :: t in deployed ==> deployed[t] == (LastWith(rows, t).value.id in status && status[LastWith(rows, t).value.id] == Succeeded)
    {
      deployed := map[];
      for i := 0 to |rows|
        invariant forall t :: t in deployed <==> LastWith(rows[..i], t).Some?
        invariant forall t :: t in deployed ==>
          deployed[t] == (LastWith(rows[..i], t).value.id in status && status[LastWith(rows[..i], t).value.id] == Succeeded)
      {
        assert rows[..i + 1][..i] == rows[..i];
        var succeeded := rows[i].id in status && status[rows[i].id] == Succeeded;
        var targets := set t | t in rows[i].targets;
        deployed := map t | t in deployed.Keys + targets :: if t in targets then succeeded else deployed[t];
      }
      assert rows[..|rows|] == rows;
    }

    method StartPublication(id: string) returns (ok: bool)
      requires Valid() && id !in active && id !in status
      modifies this
      ensures Valid() && clock == old(clock) && publications == old(publications) && log == old(log) && status == old(status)
      ensures ok <==> (old(lock).Some? ==> clock - old(lock).value.acquired > 3600)
                      && (publications != [] ==> Gate(log, status, publications[|publications| - 1]))
      ensures ok ==> lock == Some(Lock(id, clock))
      ensures ok ==> old(active) == map[] && active == map[id := Holder(Publishing, clock)]
      ensures !ok ==> active == old(active) && lock == old(lock)
    {
      ok := false;
      if Free(lock, clock) {
        assert active == map[];
        var deployed := LatestIsDeployed();
        if deployed {
          lock := Some(Lock(id, clock));
          active := map[id := Holder(Publishing, clock)];
          ok := true;
        }
      }
    }

    /** The publication itself. The previous one is deployed at this moment. */
    method Publish(id: string, p: Publication)
      requires Valid() && id in active && active[id].operation == Publishing
      requires forall i :: 0 <= i < |publications| ==> publications[i].version != p.version
      modifies this`publications, this`active
      ensures Valid() && publications == old(publications) + [p]
      ensures active == old(active)[id := Holder(Published, old(active)[id].acquired)]
      ensures old(publications) != [] ==> Gate(log, status, old(publications)[|old(publications)| - 1])
    {
      ghost var before := publications;
      forall other | other in active ensures other == id { NeverTwo(id, other); }
      publications := publications + [p];
      active := active[id := Holder(Published, active[id].acquired)];
      forall i: nat, j: nat ensures VersionsApart(publications, i, j) { assert VersionsApart(before, i, j); }
      forall k: nat ensures GateAt(log, status, publications, k) { assert GateAt(log, status, before, k); }
    }
  }

  lemma OverlookedIsPublished(second: Run, first: Run, status: map<string, Status>)
    requires second.revision == first.revision && second.planHash == first.planHash && Earlier(first, second)
    requires second.targets == first.targets == ["t"] && second.id != first.id
    requires second.id in status && status[second.id] == Succeeded && first.id in status && status[first.id] == Failed
    ensures Gate([second, first], status, Publication(first.revision, Some(StoredPlan(first.planHash, {"t"}, {"t"}))))
    ensures !SucceededLast([second, first], status, first.revision, first.planHash, "t")
  {
    hide Rows, ByStamp, LastWith;
    TwoRuns(second, first);
    NewestDecides([second, first], status, first.revision, first.planHash, "t");
  }

  /** A database whose only revision is published and waits for its deployment. */
  method FirstRevision(clock: nat, p: Publication) returns (db: Database)
    ensures db.Valid() && fresh(db) && db.clock == clock && db.publications == [p]
    ensures db.log == [] && db.status == map[] && db.active == map[] && db.lock == None
  {
    hide Gate, GateAt;
    db := new Database(clock);
    var ok := db.StartPublication("p");
    db.Publish("p", p);
    db.Release("p");
  }

  /** A deployment from its start to its end. */
  method Deploy(db: Database, run: Run, outcome: Status)
    requires db.Valid() && run.id !in db.status && db.active == map[] && db.lock == None && run.stamp <= db.clock <= run.stamp + LEASE
    requires db.publications != [] && db.publications[|db.publications| - 1].version == run.revision
    modifies db
    ensures db.Valid() && db.publications == old(db.publications) && db.clock == old(db.clock)
    ensures db.log == old(db.log) + [run] && db.status == old(db.status)[run.id := outcome] && db.active == map[] && db.lock == None
  {
    hide Gate, GateAt;
    var ok := db.StartDeployment(run);
    ok := db.FinishDeployment(run.id, outcome);
    db.Release(run.id);
  }

  /** A run stamped early and started late is overlooked when it fails: the next
      revision is published although the last deployment of this one has failed. */
  method LateStarterIsOverlooked() returns (db: Database, published: bool)
    ensures db.Valid() && published
    ensures |db.publications| == 2 && db.publications[0] == Publication("r", Some(StoredPlan("h", {"t"}, {"t"})))
    ensures !SucceededLast(db.log, db.status, "r", "h", "t") && |db.log| == 2 && db.status[db.log[1].id] == Failed
  {
    hide Gate, GateAt, SucceededLast, Earlier;
    var first, second := Run("a", "r", "h", ["t"], 10), Run("b", "r", "h", ["t"], 11);
    db := FirstRevision(10, Publication("r", Some(StoredPlan("h", {"t"}, {"t"}))));
    db.Tick();
    Deploy(db, second, Succeeded);
    Deploy(db, first, Failed);
    StampedEarlier(first, second);
    assert db.log == [second, first];
    OverlookedIsPublished(second, first, db.status);
    published := db.StartPublication("q");
    db.Publish("q", Publication("s", None));
  }

  /** The first revision alone: the next one is published exactly if no target is
      both executable and in the plan's commands. */
  method NextAfterFirst(clock: nat, p: Publication) returns (db: Database, ok: bool)
    ensures db.Valid() && db.publications == [p]
    ensures ok <==> p.plan.None? || forall t :: t in p.plan.value.commandTargets ==> t !in p.plan.value.executable
  {
    hide GateAt;
    db := FirstRevision(clock, p);
    ok := db.StartPublication("q");
  }

  /** After one run, exactly if a run of that very plan succeeded on all of them. */
  method NextAfterRun(clock: nat, p: Publication, run: Run, outcome: Status) returns (db: Database, ok: bool)
    requires run.revision == p.version && run.stamp <= clock <= run.stamp + LEASE && run.id != "q"
    ensures db.Valid() && db.publications == [p]
    ensures ok <==> p.plan.None? || forall t :: t in p.plan.value.commandTargets && t in p.plan.value.executable ==>
                      run.planHash == p.plan.value.hash && t in run.targets && outcome == Succeeded
  {
    hide GateAt;
    db := FirstRevision(clock, p);
    Deploy(db, run, outcome);
    assert db.log == [run];
    ok := db.StartPublication("q");
    if p.plan.Some? {
      forall t ensures Deployed(db.log, db.status, p.version, p.plan.value.hash, t)
                 <==> run.planHash == p.plan.value.hash && t in run.targets && outcome == Succeeded
      {
        if run.planHash == p.plan.value.hash && t in run.targets { assert Concerns(db.log, p.version, p.plan.value.hash, t, run); }
      }
    }
  }

  /** An undeployed target that is not executable does not stop the next revision. */
  method OnlyExecutableTargetsCount() returns (executable: bool, manual: bool)
    ensures !executable && manual
  {
    hide GateAt;
    var plan := StoredPlan("h", {"t"}, {"t"});
    var db: Database;
    assert "t" in plan.commandTargets;
    db, executable := NextAfterFirst(10, Publication("r", Some(plan)));
    db, manual := NextAfterFirst(10, Publication("r", Some(plan.(executable := {}))));
  }

  lemma StampedEarlier(first: Run, second: Run)
    requires first.stamp < second.stamp
    ensures Earlier(first, second)
  {
  }

  /** A lock that was left behind stops everybody until its lease has run out. */
  method LeftLockRunsOut() returns (db: Database, early: bool, late: bool)
    ensures db.Valid() && !early && late
  {
    db := new Database(0);
    var ok := db.StartPublication("p");
    db.Abandon("p");
    early := db.StartPublication("q");
    while db.clock <= LEASE
      invariant db.Valid() && db.active == map[] && db.lock == Some(Lock("p", 0)) && db.publications == [] && db.status == map[] && db.clock <= LEASE + 1
      decreases LEASE + 1 - db.clock
    {
      db.Tick();
    }
    late := db.StartPublication("q");
  }

  /** Runs of the latest revision do not touch the verdict on an older one. */
  lemma LaterRunKeepsGate(log: seq<Run>, status: map<string, Status>, p: Publication, run: Run)
    requires Gate(log, status, p) && run.revision != p.version && run.id !in status
    ensures Gate(log + [run], status[run.id := Running], p)
  {
    if p.plan.Some? {
      var hash := p.plan.value.hash;
      forall t, q ensures Concerns(log + [run], p.version, hash, t, q) <==> Concerns(log, p.version, hash, t, q) { }
      forall t | Deployed(log, status, p.version, hash, t) ensures Deployed(log + [run], status[run.id := Running], p.version, hash, t) { }
    }
  }

  lemma OtherStatusKeepsGate(log: seq<Run>, status: map<string, Status>, p: Publication, id: string, outcome: Status)
    requires Gate(log, status, p) && forall r :: r in log && r.id == id ==> r.revision != p.version
    ensures Gate(log, status[id := outcome], p)
  {
    if p.plan.Some? {
      var hash := p.plan.value.hash;
      forall t | Deployed(log, status, p.version, hash, t) ensures Deployed(log, status[id := outcome], p.version, hash, t) { }
    }
  }
}
