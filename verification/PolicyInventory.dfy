/** The inventory of policies seen on devices, with the services assigned to them. */
module PolicyInventory {
  import opened Options
  import opened Texts
  import opened PublishedServices

  datatype Origin = Unknown | Automatic | Manual

  /** The key of a row: a target and the identity of a policy on it. */
  datatype Id = Id(target: string, remote: string)

  datatype Snapshot = Snapshot(remote: string, policyId: string, name: string, fingerprint: string)

  datatype Row = Row(policyId: string, name: string, fingerprint: string, service: string, origin: Origin, present: bool, scan: nat, revision: int)

  type Rows = map<Id, Row>

  datatype Outcome = Done | BadRequest | Unpublished | NotFound | Absent | Conflict

  // ---------------------------------------------------------------- one row

  function Lookup(rows: Rows, id: Id): Option<Row> {
    if id in rows then Some(rows[id]) else None
  }

  /** A manual assignment stays while its service is published; otherwise the name of
      the policy decides. */
  function Assignment(was: Option<Row>, index: Index, contexts: seq<string>, name: string): (string, Origin) {
    var automatic := Match(index, contexts, name);
    var fallback := (automatic, if automatic == "" then Unknown else Automatic);
    if was.None? || was.value.origin != Manual then fallback
    else if was.value.service == "" then ("", Manual)
    else if Lower(was.value.service) in index.services && index.services[Lower(was.value.service)] != "" then
      (index.services[Lower(was.value.service)], Manual)
    else fallback
  }

  /** A row once its policy was scanned. */
  function Seen(was: Option<Row>, snapshot: Snapshot, index: Index, contexts: seq<string>, scan: nat): Row {
    var (service, origin) := Assignment(was, index, contexts, snapshot.name);
    var revision :=
      if was.None? then 1
      else if was.value.fingerprint != snapshot.fingerprint || was.value.service != service || was.value.origin != origin || !was.value.present
      then was.value.revision + 1
      else was.value.revision;
    Row(snapshot.policyId, snapshot.name, snapshot.fingerprint, service, origin, true, scan, revision)
  }

  /** A row whose policy is not there any more. */
  function Lost(row: Row): Row {
    if row.present then row.(present := false, revision := row.revision + 1) else row
  }

  /** Only a present row changes: it becomes absent, at the next revision. */
  ghost predicate LostRow(was: Row, now: Row) {
    now == if was.present then was.(present := false, revision := was.revision + 1) else was
  }

  lemma RetiredIs(was: Rows, now: Rows, active: set<string>, scans: nat)
    requires now.Keys == was.Keys
    requires forall id :: id in now ==> now[id] == if id.target in active then was[id] else Lost(was[id])
    ensures IsStep(was, now, Retiring(active)) && Evolves(was, now)
    ensures forall id :: id in now ==> if id.target in active then now[id] == was[id] else LostRow(was[id], now[id])
    ensures (forall id :: id in was ==> was[id].scan < scans && was[id].revision >= 1) ==> forall id :: id in now ==> now[id].scan < scans && now[id].revision >= 1
  {
  }

  // ---------------------------------------------------------------- what an operation does

  ghost predicate Apart(observed: seq<Snapshot>) {
    forall i, j :: 0 <= i < j < |observed| ==> observed[i].remote != observed[j].remote
  }

  ghost predicate Scanned(observed: seq<Snapshot>, n: nat, remote: string)
    requires n <= |observed|
  {
    exists i :: 0 <= i < n && observed[i].remote == remote
  }

  /** One scan of a target: it decides every row. */
  ghost predicate IsScan(was: Rows, now: Rows, target: string, contexts: seq<string>, observed: seq<Snapshot>, index: Index, scan: nat) {
    && (forall id :: id in now <==> id in was || (id.target == target && Scanned(observed, |observed|, id.remote)))
    && (forall i :: 0 <= i < |observed| ==>
      var id := Id(target, observed[i].remote);
      id in now && now[id] == Seen(Lookup(was, id), observed[i], index, contexts, scan))
    && (forall id :: id in was && id in now && id.target == target && !Scanned(observed, |observed|, id.remote) ==> now[id] == Lost(was[id]))
    && forall id :: id in was && id in now && id.target != target ==> now[id] == was[id]
  }

  /** The state of a row that its revision stands for. */
  predicate SameState(a: Row, b: Row) {
    a.fingerprint == b.fingerprint && a.service == b.service && a.origin == b.origin && a.present == b.present
  }

  /** No row goes away; a revision never falls, and rises with every change. */
  ghost predicate Evolves(was: Rows, now: Rows) {
    forall id :: id in was ==> id in now && RowEvolves(was[id], now[id])
  }

  predicate RowEvolves(was: Row, now: Row) {
    was.revision <= now.revision && (was.revision == now.revision ==> SameState(was, now))
  }

  // ---------------------------------------------------------------- the inventory

  class Inventory {
    var rows: Rows
    var scans: nat

    /** Scan numbers are fresh. */
    ghost predicate Valid()
      reads this
    {
      forall id :: id in rows ==> rows[id].scan < scans && rows[id].revision >= 1
    }

    constructor ()
      ensures Valid() && rows == map[]
    {
      rows, scans := map[], 0;
    }

    /** Stores one complete reading of a target. `current`: the record of a managed
        device is still the one that was read. */
    method Scan(target: string, contexts: seq<string>, observed: seq<Snapshot>, index: Index, current: bool)
      returns (ok: bool, newPolicies: nat)
      requires Valid()
      modifies this
      ensures Valid() && Evolves(old(rows), rows)
      ensures ok <==> Apart(observed) && current
      ensures ok ==> IsScan(old(rows), rows, target, contexts, observed, index, old(scans))
      ensures ok ==> forall published :: Shows(index, published) ==>
        IsStep(old(rows), rows, Scanning(target, contexts, observed, index, published, old(scans)))
      ensures ok ==> newPolicies == |NewIds(old(rows), target, observed, |observed|)|
      ensures !ok ==> rows == old(rows)
    {
      hide Seen, Lost, Scanned, IsScan, NewIds, StoredUpTo, Evolves, Shows;
      newPolicies := 0;
      EvolvesSame(rows);
      var apart := AllApart(observed);
      if !apart || !current {
        return false, 0;
      }
      var scan, working := scans, rows;
      NoneStored(rows, target, contexts, observed, index, scan);
      var i := 0;
      while i < |observed|
        invariant 0 <= i <= |observed|
        invariant rows == old(rows) && scans == scan == old(scans)
        invariant StoredUpTo(rows, working, target, contexts, observed, index, scan, i)
        invariant newPolicies == |NewIds(rows, target, observed, i)|
      {
        var id := Id(target, observed[i].remote);
        StoredMore(rows, working, target, contexts, observed, index, scan, i);
        if id !in working {
          newPolicies := newPolicies + 1;
        }
        working := working[id := Seen(Lookup(working, id), observed[i], index, contexts, scan)];
        i := i + 1;
      }
      var final := map id | id in working :: if id.target == target && working[id].present && working[id].scan != scan then Lost(working[id]) else working[id];
      StoredIsScan(rows, working, final, target, contexts, observed, index, scan);
      ScanEvolves(rows, final, target, contexts, observed, index, scan);
      ScanNumbers(rows, final, target, contexts, observed, index, scan);
      rows, scans := final, scan + 1;
      ok := true;
    }

    /** Retires the rows of targets that are not active. */
    method Reconcile(active: set<string>)
      requires Valid()
      modifies this`rows
      ensures Valid() && Evolves(old(rows), rows)
      ensures rows.Keys == old(rows).Keys
      ensures forall id :: id in rows ==>
        if id.target in active then rows[id] == old(rows)[id] else LostRow(old(rows)[id], rows[id])
      ensures IsStep(old(rows), rows, Retiring(active))
    {
      hide Lost, LostRow, IsStep, Evolves;
      var known := set id | id in rows :: id.target;
      ghost var done: set<string> := {};
      while known != {}
        invariant forall id :: id in old(rows) ==> id.target in known || id.target in done
        invariant known !! done
        invariant rows.Keys == old(rows).Keys
        invariant forall id :: id in rows ==> rows[id] == if id.target in done && id.target !in active then Lost(old(rows)[id]) else old(rows)[id]
        decreases |known|
      {
        var target :| target in known;
        if target !in active {
          rows := map id | id in rows :: if id.target == target then Lost(rows[id]) else rows[id];
        }
        known, done := known - {target}, done + {target};
      }
      RetiredIs(old(rows), rows, active, scans);
    }

    /** A person assigns a service, or none, to a policy as seen at some revision. */
    method Assign(id: Id, expected: int, requested: string, index: Index) returns (outcome: Outcome)
      requires Valid()
      modifies this`rows
      ensures Valid() && Evolves(old(rows), rows)
      ensures outcome == Done <==> expected >= 1 && Offered(index, requested).Some?
                                   && id in old(rows) && old(rows)[id].present && old(rows)[id].revision == expected
      ensures outcome == BadRequest <==> expected < 1
      ensures outcome == Unpublished <==> expected >= 1 && Offered(index, requested).None?
      ensures outcome == NotFound <==> expected >= 1 && Offered(index, requested).Some? && id !in old(rows)
      ensures outcome == Absent <==> expected >= 1 && Offered(index, requested).Some? && id in old(rows) && !old(rows)[id].present
      ensures outcome == Done ==> rows == old(rows)[id := old(rows)[id].(service := Offered(index, requested).value, origin := Manual, revision := expected + 1)]
      ensures outcome == Done ==> IsStep(old(rows), rows, Assigning(id, expected, Offered(index, requested).value))
      ensures outcome != Done ==> rows == old(rows)
    {
      if expected < 1 {
        return BadRequest;
      }
      var service := Offered(index, requested);
      if service.None? {
        return Unpublished;
      }
      if id !in rows {
        return NotFound;
      }
      if !rows[id].present {
        return Absent;
      }
      if rows[id].revision != expected {
        return Conflict;
      }
      rows := rows[id := Taken(rows[id], service.value)];
      outcome := Done;
    }
  }

  /** The published service a request names; no service for an empty request. */
  function Offered(index: Index, requested: string): Option<string> {
    var name := Trim(requested);
    if name == "" then Some("")
    else if Lower(name) in index.services && index.services[Lower(name)] != "" then Some(index.services[Lower(name)])
    else None
  }

  /** The request is blank, or it names the last published service with this name up
      to case and space. */
  ghost predicate IsOffered(published: seq<Service>, requested: string, s: string) {
    if Trim(requested) == "" then s == "" else s != "" && exists i :: LastWith(published, Lower(Trim(requested)), s, i)
  }

  lemma OfferedIs(index: Index, published: seq<Service>, requested: string)
    requires Shows(index, published)
    ensures forall s :: Offered(index, requested) == Some(s) <==> IsOffered(published, requested, s)
  {
    hide Canonical, LastNamed, Lower, Trim, LastWith;
    var name := Trim(requested);
    forall s ensures LastNamed(published, Lower(name)) == Some(s) <==> Lower(name) != "" && exists i :: LastWith(published, Lower(name), s, i) {
      LastNamedIs(published, Lower(name), s);
    }
    assert |Lower(name)| == |name|;
  }

  /** The row is present and at the revision that was seen. */
  predicate Current(rows: Rows, id: Id, expected: int) {
    id in rows && rows[id].present && rows[id].revision == expected
  }

  function Taken(row: Row, service: string): Row {
    row.(service := service, origin := Manual, revision := row.revision + 1)
  }

  // ---------------------------------------------------------------- storing a scan

  method AllApart(observed: seq<Snapshot>) returns (apart: bool)
    ensures apart <==> Apart(observed)
  {
    var seen: set<string> := {};
    var i := 0;
    while i < |observed|
      invariant 0 <= i <= |observed|
      invariant forall r :: r in seen <==> exists k :: 0 <= k < i && observed[k].remote == r
      invariant forall k, l :: 0 <= k < l < i ==> observed[k].remote != observed[l].remote
    {
      if observed[i].remote in seen {
        return false;
      }
      seen := seen + {observed[i].remote};
      i := i + 1;
    }
    apart := true;
  }

  ghost function NewIds(rows: Rows, target: string, observed: seq<Snapshot>, n: nat): set<Id>
    requires n <= |observed|
  {
    set i | 0 <= i < n && Id(target, observed[i].remote) !in rows :: Id(target, observed[i].remote)
  }

  /** The first `n` snapshots are stored. */
  ghost predicate StoredUpTo(was: Rows, now: Rows, target: string, contexts: seq<string>, observed: seq<Snapshot>, index: Index, scan: nat, n: nat)
    requires n <= |observed|
  {
    && (forall id :: id in now <==> id in was || (id.target == target && Scanned(observed, n, id.remote)))
    && (forall i :: 0 <= i < n ==> StoredAt(was, now, target, contexts, observed, index, scan, i))
    && forall id :: id in was && id in now && !(id.target == target && Scanned(observed, n, id.remote)) ==> now[id] == was[id]
  }

  ghost predicate StoredAt(was: Rows, now: Rows, target: string, contexts: seq<string>, observed: seq<Snapshot>, index: Index, scan: nat, i: nat)
    requires i < |observed|
  {
    var id := Id(target, observed[i].remote);
    id in now && now[id] == Seen(Lookup(was, id), observed[i], index, contexts, scan)
  }

  lemma NoneStored(was: Rows, target: string, contexts: seq<string>, observed: seq<Snapshot>, index: Index, scan: nat)
    ensures StoredUpTo(was, was, target, contexts, observed, index, scan, 0)
    ensures NewIds(was, target, observed, 0) == {}
  {
  }

  lemma ScannedMore(observed: seq<Snapshot>, n: nat)
    requires n < |observed|
    ensures forall r :: Scanned(observed, n + 1, r) <==> Scanned(observed, n, r) || r == observed[n].remote
  {
    forall r ensures Scanned(observed, n + 1, r) <==> Scanned(observed, n, r) || r == observed[n].remote {
      if r == observed[n].remote { assert observed[n].remote == r; }
    }
  }

  lemma NotYet(observed: seq<Snapshot>, n: nat)
    requires Apart(observed) && n < |observed|
    ensures !Scanned(observed, n, observed[n].remote)
  {
  }

  lemma StoredMore(was: Rows, now: Rows, target: string, contexts: seq<string>, observed: seq<Snapshot>, index: Index, scan: nat, n: nat)
    requires n < |observed| && Apart(observed) && StoredUpTo(was, now, target, contexts, observed, index, scan, n)
    ensures var id := Id(target, observed[n].remote);
      && StoredUpTo(was, now[id := Seen(Lookup(now, id), observed[n], index, contexts, scan)], target, contexts, observed, index, scan, n + 1)
      && (id in now <==> id in was)
      && |NewIds(was, target, observed, n + 1)| == |NewIds(was, target, observed, n)| + if id in now then 0 else 1
  {
    hide Seen, Scanned;
    var id := Id(target, observed[n].remote);
    ScannedMore(observed, n);
    NotYet(observed, n);
    NewIdsMore(was, target, observed, n);
    assert Lookup(now, id) == Lookup(was, id);
    var next := now[id := Seen(Lookup(now, id), observed[n], index, contexts, scan)];
    forall i | 0 <= i < n + 1 ensures StoredAt(was, next, target, contexts, observed, index, scan, i) {
      if i < n {
        assert StoredAt(was, now, target, contexts, observed, index, scan, i);
        assert observed[i].remote != observed[n].remote;
      }
    }
  }

  lemma NewIdsMore(was: Rows, target: string, observed: seq<Snapshot>, n: nat)
    requires n < |observed| && Apart(observed)
    ensures |NewIds(was, target, observed, n + 1)| == |NewIds(was, target, observed, n)| + if Id(target, observed[n].remote) in was then 0 else 1
  {
    var id := Id(target, observed[n].remote);
    var before := NewIds(was, target, observed, n);
    assert id !in before;
    assert NewIds(was, target, observed, n + 1) == if id in was then before else before + {id};
  }

  lemma StoredIsScan(was: Rows, working: Rows, final: Rows, target: string, contexts: seq<string>, observed: seq<Snapshot>, index: Index, scan: nat)
    requires StoredUpTo(was, working, target, contexts, observed, index, scan, |observed|)
    requires forall id :: id in was ==> was[id].scan < scan
    requires final == map id | id in working :: if id.target == target && working[id].present && working[id].scan != scan then Lost(working[id]) else working[id]
    ensures IsScan(was, final, target, contexts, observed, index, scan)
  {
    hide Scanned;
    forall i | 0 <= i < |observed| ensures var id := Id(target, observed[i].remote);
      id in final && final[id] == Seen(Lookup(was, id), observed[i], index, contexts, scan)
    {
      assert StoredAt(was, working, target, contexts, observed, index, scan, i);
    }
    hide Seen;
  }

  lemma ScanNumbers(was: Rows, now: Rows, target: string, contexts: seq<string>, observed: seq<Snapshot>, index: Index, scan: nat)
    requires IsScan(was, now, target, contexts, observed, index, scan)
    requires forall id :: id in was ==> was[id].scan < scan && was[id].revision >= 1
    ensures forall id :: id in now ==> now[id].scan < scan + 1 && now[id].revision >= 1
  {
    hide Assignment;
    forall id | id in now ensures now[id].scan < scan + 1 && now[id].revision >= 1 {
      if id.target == target && Scanned(observed, |observed|, id.remote) {
        var i :| 0 <= i < |observed| && observed[i].remote == id.remote;
        assert id == Id(target, observed[i].remote);
      }
    }
  }

  lemma EvolvesSame(rows: Rows)
    ensures Evolves(rows, rows)
  {
  }

  // ---------------------------------------------------------------- what a scan means

  /** After a scan, the present rows of the target are exactly the scanned policies. */
  lemma PresentAreScanned(was: Rows, now: Rows, target: string, contexts: seq<string>, observed: seq<Snapshot>, index: Index, scan: nat)
    requires IsScan(was, now, target, contexts, observed, index, scan)
    ensures forall id: Id :: id.target == target ==> (id in now && now[id].present <==> Scanned(observed, |observed|, id.remote))
  {
    hide Assignment;
  }

  /** A revision rises, by one, exactly when the state of its row changes. */
  lemma ScanEvolves(was: Rows, now: Rows, target: string, contexts: seq<string>, observed: seq<Snapshot>, index: Index, scan: nat)
    requires IsScan(was, now, target, contexts, observed, index, scan)
    ensures Evolves(was, now)
    ensures forall id :: id in was && id in now ==> now[id].revision == was[id].revision + if SameState(was[id], now[id]) then 0 else 1
    ensures forall id :: id in was && id.target != target ==> now[id] == was[id]
  {
    hide Assignment, Lookup;
    forall id | id in was ensures id in now && RowEvolves(was[id], now[id]) && now[id].revision == was[id].revision + if SameState(was[id], now[id]) then 0 else 1 {
      if id.target == target && Scanned(observed, |observed|, id.remote) {
        var i :| 0 <= i < |observed| && observed[i].remote == id.remote;
        assert id == Id(target, observed[i].remote);
        FoundRow(was, id);
      }
    }
  }

  lemma FoundRow(rows: Rows, id: Id)
    requires id in rows
    ensures Lookup(rows, id) == Some(rows[id])
  {
  }

  // ---------------------------------------------------------------- manual assignments

  /** The last published service with this canonical name is this one. */
  lemma {:induction false} LastNamedIs(published: seq<Service>, key: string, s: string)
    ensures LastNamed(published, key) == Some(s) <==> key != "" && exists i :: LastWith(published, key, s, i)
  {
    hide Lower, Trim;
    if published != [] && key != "" {
      var m := |published| - 1;
      LastNamedIs(published[..m], key, s);
      if Canonical(published[m].name) == key {
        if published[m].name == s { assert LastWith(published, key, s, m); }
      } else {
        if i :| LastWith(published[..m], key, s, i) { assert LastWith(published, key, s, i); }
        if i :| LastWith(published, key, s, i) { assert LastWith(published[..m], key, s, i); }
      }
    }
  }

  /** Service `i` is `s`, and no later one has the same canonical name. */
  ghost predicate LastWith(published: seq<Service>, key: string, s: string, i: int) {
    && 0 <= i < |published| && published[i].name == s && Lower(Trim(s)) == key
    && forall j :: i < j < |published| ==> Lower(Trim(published[j].name)) != key
  }

  /** A manual assignment to a service survives a scan of its policy exactly if the
      service is published, without surrounding space in its name, and no service
      published after it has the same name up to case and space. */
  lemma ManualSurvives(was: Rows, now: Rows, target: string, contexts: seq<string>, observed: seq<Snapshot>, index: Index, scan: nat, published: seq<Service>, id: Id)
    requires IsScan(was, now, target, contexts, observed, index, scan) && Shows(index, published)
    requires id in was && id.target == target && Scanned(observed, |observed|, id.remote)
    requires was[id].origin == Manual && was[id].service != ""
    ensures id in now
    ensures now[id].origin == Manual && now[id].service == was[id].service <==> exists i :: LastWith(published, Lower(was[id].service), was[id].service, i)
  {
    hide Canonical, Match, LastNamed, Lower;
    var s := was[id].service;
    var i :| 0 <= i < |observed| && observed[i].remote == id.remote;
    assert id == Id(target, observed[i].remote);
    LastNamedIs(published, Lower(s), s);
    assert |Lower(s)| == |s|;
  }

  /** A manual assignment to no service survives every scan. */
  lemma ManualUnknownSurvives(was: Rows, now: Rows, target: string, contexts: seq<string>, observed: seq<Snapshot>, index: Index, scan: nat, id: Id)
    requires IsScan(was, now, target, contexts, observed, index, scan) && id in was && id in now
    requires was[id].origin == Manual && was[id].service == ""
    ensures now[id].origin == Manual && now[id].service == ""
  {
    hide Match;
    if id.target == target && Scanned(observed, |observed|, id.remote) {
      var i :| 0 <= i < |observed| && observed[i].remote == id.remote;
      assert id == Id(target, observed[i].remote);
    }
  }

  /** Policies that are away keep their assignment until they come back; a policy of
      the target that was there before is marked as absent. */
  lemma AwayKeepsAssignment(was: Rows, now: Rows, target: string, contexts: seq<string>, observed: seq<Snapshot>, index: Index, scan: nat, id: Id)
    requires IsScan(was, now, target, contexts, observed, index, scan) && id in was
    requires id.target != target || !Scanned(observed, |observed|, id.remote)
    ensures id in now && now[id].origin == was[id].origin && now[id].service == was[id].service
    ensures if id.target == target then LostRow(was[id], now[id]) else now[id] == was[id]
  {
    hide Seen;
  }

  /** What the name of a policy says about its service. */
  ghost predicate ByName(published: seq<Service>, contexts: seq<string>, name: string, service: string, origin: Origin) {
    var key := Lower(Trim(name));
    if Silent(published, contexts, key) || Torn(published, contexts, key) then service == "" && origin == Unknown
    else service != "" && origin == Automatic && exists i: nat, j: nat :: Points(published, contexts, key, i, j) && published[i].name == service
  }

  /** What a scan assigns: a choice by hand while its service is published, and
      otherwise what the name of the policy says. */
  ghost predicate Assigned(was: Option<Row>, published: seq<Service>, contexts: seq<string>, name: string, row: Row) {
    if was.None? || was.value.origin != Manual then
      ByName(published, contexts, name, row.service, row.origin)
    else if was.value.service == "" then
      row.service == "" && row.origin == Manual
    else if exists s, i :: s != "" && LastWith(published, Lower(was.value.service), s, i) then
      row.service != "" && row.origin == Manual && exists i :: LastWith(published, Lower(was.value.service), row.service, i)
    else
      ByName(published, contexts, name, row.service, row.origin)
  }

  /** What a scan stores about each policy it reads. */
  lemma ScanStores(was: Rows, now: Rows, target: string, contexts: seq<string>, observed: seq<Snapshot>, index: Index, scan: nat, published: seq<Service>, i: nat)
    requires IsScan(was, now, target, contexts, observed, index, scan) && Shows(index, published) && i < |observed|
    ensures var id := Id(target, observed[i].remote);
      && id in now && now[id].policyId == observed[i].policyId && now[id].name == observed[i].name
      && now[id].fingerprint == observed[i].fingerprint && now[id].present && now[id].scan == scan
      && Assigned(if id in was then Some(was[id]) else None, published, contexts, observed[i].name, now[id])
      && (id !in was ==> now[id].revision == 1)
  {
    hide Match, Lower, Trim, Silent, Torn, LastWith, LastNamed, Canonical, Points;
    var id := Id(target, observed[i].remote);
    MatchMeans(index, published, contexts, observed[i].name);
    assert now[id] == Seen(Lookup(was, id), observed[i], index, contexts, scan);
    if id in was && was[id].origin == Manual && was[id].service != "" {
      StillPublished(index, published, was[id].service);
    }
  }

  lemma StillPublished(index: Index, published: seq<Service>, service: string)
    requires Shows(index, published) && service != ""
    ensures var key := Lower(service);
      && (key in index.services ==> exists i :: LastWith(published, key, index.services[key], i))
      && (forall s, i :: LastWith(published, key, s, i) ==> key in index.services && index.services[key] == s)
  {
    hide Lower, Trim, LastWith, LastNamed, Canonical;
    var key := Lower(service);
    assert |key| == |service|;
    forall s ensures LastNamed(published, key) == Some(s) <==> exists i :: LastWith(published, key, s, i) { LastNamedIs(published, key, s); }
    forall s, i | LastWith(published, key, s, i) ensures key in index.services && index.services[key] == s {
      assert LastNamed(published, key) == Some(s);
    }
  }

  /** Two published services whose names differ in case only: the assignment moves from
      the first to the second although the first is still published. */
  lemma CaseVariantTakesOver(index: Index, contexts: seq<string>, was: Row)
    requires Shows(index, [Service("Web", []), Service("web", [])])
    requires was.service == "Web" && was.origin == Manual
    ensures Assignment(Some(was), index, contexts, was.name) == ("web", Manual)
  {
    var published := [Service("Web", []), Service("web", [])];
    assert Lower("Web") == "web" && Lower("web") == "web" && Trim("web") == "web";
    assert LastNamed(published, "web") == Some("web");
  }

  // ---------------------------------------------------------------- runs

  /** What happens to the inventory: the scan of a target with the services published
      at that time, the retirement of targets, the assignment of a service. */
  datatype Event =
    | Scanning(target: string, contexts: seq<string>, observed: seq<Snapshot>, index: Index, published: seq<Service>, scan: nat)
    | Retiring(active: set<string>)
    | Assigning(id: Id, expected: int, service: string)

  ghost predicate IsStep(was: Rows, now: Rows, e: Event) {
    match e
    case Scanning(target, contexts, observed, index, published, scan) => Shows(index, published) && IsScan(was, now, target, contexts, observed, index, scan)
    case Retiring(active) => now.Keys == was.Keys && forall id :: id in now && id in was ==>
      if id.target in active then now[id] == was[id] else LostRow(was[id], now[id])
    case Assigning(id, expected, service) => Current(was, id, expected) && now == was[id := was[id].(service := service, origin := Manual, revision := expected + 1)]
  }

  /** A run of scans, retirements and assignments, from state to state. */
  ghost predicate IsRun(run: seq<Rows>, events: seq<Event>) {
    |run| == |events| + 1 && forall i :: 0 <= i < |events| ==> IsStep(run[i], run[i + 1], events[i])
  }

  lemma StepEvolves(was: Rows, now: Rows, e: Event)
    requires IsStep(was, now, e)
    ensures Evolves(was, now)
  {
    hide IsScan, Shows;
    if e.Scanning? { ScanEvolves(was, now, e.target, e.contexts, e.observed, e.index, e.scan); }
  }

  lemma {:induction false} RunEvolves(run: seq<Rows>, events: seq<Event>, i: nat, j: nat)
    requires IsRun(run, events) && i <= j < |run|
    ensures Evolves(run[i], run[j])
    decreases j
  {
    hide IsStep;
    if i < j {
      RunEvolves(run, events, i, j - 1);
      StepEvolves(run[j - 1], run[j], events[j - 1]);
      EvolvesTrans(run[i], run[j - 1], run[j]);
    } else {
      EvolvesSame(run[i]);
    }
  }

  lemma EvolvesTrans(a: Rows, b: Rows, c: Rows)
    requires Evolves(a, b) && Evolves(b, c)
    ensures Evolves(a, c)
  {
  }

  /** A stale request never wins: once the state differs from what was seen at a
      revision, no later state takes a request for that revision. */
  lemma StaleNeverWins(run: seq<Rows>, events: seq<Event>, i: nat, j: nat, k: nat, id: Id)
    requires IsRun(run, events) && i <= j <= k < |run| && id in run[i]
    requires id in run[j] && !SameState(run[i][id], run[j][id])
    ensures !Current(run[k], id, run[i][id].revision)
  {
    hide Evolves, IsStep;
    RunEvolves(run, events, i, j);
    RunEvolves(run, events, j, k);
    RevisionsGrow(run[i], run[j], run[k], id);
  }

  lemma RevisionsGrow(a: Rows, b: Rows, c: Rows, id: Id)
    requires Evolves(a, b) && Evolves(b, c) && id in a && id in b && !SameState(a[id], b[id])
    ensures !Current(c, id, a[id].revision)
  {
  }

  /** Of two requests that saw the same revision, only the first can win. */
  lemma TakenOnce(run: seq<Rows>, events: seq<Event>, i: nat, j: nat)
    requires IsRun(run, events) && i < j < |events| && events[i].Assigning? && events[j].Assigning? && events[i].id == events[j].id
    ensures events[i].expected < events[j].expected
  {
    RunEvolves(run, events, i + 1, j);
    assert IsStep(run[i], run[i + 1], events[i]) && IsStep(run[j], run[j + 1], events[j]);
    var id := events[i].id;
    assert id in run[i + 1] && run[i + 1][id].revision == events[i].expected + 1;
  }

  /** The row is assigned to this service by hand. */
  predicate ByHand(rows: Rows, id: Id, service: string) {
    id in rows && rows[id].origin == Manual && rows[id].service == service
  }

  /** The event reads the policy of the row. */
  ghost predicate Reads(e: Event, id: Id) {
    e.Scanning? && id.target == e.target && Scanned(e.observed, |e.observed|, id.remote)
  }

  /** The service is published at the time of a scan, and nothing published after it
      has the same name up to case and space. */
  ghost predicate Publishes(e: Event, service: string) {
    service == "" || (e.Scanning? && exists i :: LastWith(e.published, Lower(service), service, i))
  }

  /** One event leaves an assignment by hand alone exactly if it is not a scan that
      reads the policy while the service is not published. */
  lemma StepKeepsAssignment(was: Rows, now: Rows, e: Event, id: Id, service: string)
    requires IsStep(was, now, e) && ByHand(was, id, service) && !(e.Assigning? && e.id == id)
    ensures ByHand(now, id, service) <==> !Reads(e, id) || Publishes(e, service)
  {
    hide LastWith, Lower, Seen, Shows;
    if e.Scanning? {
      if !Reads(e, id) {
        AwayKeepsAssignment(was, now, e.target, e.contexts, e.observed, e.index, e.scan, id);
      } else if service == "" {
        ManualUnknownSurvives(was, now, e.target, e.contexts, e.observed, e.index, e.scan, id);
      } else {
        ManualSurvives(was, now, e.target, e.contexts, e.observed, e.index, e.scan, e.published, id);
      }
    }
  }

  /** As long as nobody assigns anew, a row stays assigned by hand throughout a run
      exactly if every scan that reads its policy finds the service published. */
  lemma {:induction false} ManualStays(run: seq<Rows>, events: seq<Event>, i: nat, j: nat, id: Id, service: string)
    requires IsRun(run, events) && i <= j < |run| && ByHand(run[i], id, service)
    requires forall k :: i <= k < j ==> !(events[k].Assigning? && events[k].id == id)
    ensures (forall k :: i <= k <= j ==> ByHand(run[k], id, service))
       <==> (forall k :: i <= k < j ==> !Reads(events[k], id) || Publishes(events[k], service))
    decreases j
  {
    hide IsStep, ByHand, Reads, Publishes;
    if i < j {
      ManualStays(run, events, i, j - 1, id, service);
      if forall k :: i <= k <= j - 1 ==> ByHand(run[k], id, service) {
        StepKeepsAssignment(run[j - 1], run[j], events[j - 1], id, service);
      }
    }
  }
}
