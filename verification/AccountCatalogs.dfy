/** The account catalog: every change names the version it was made against. */
module AccountCatalogs {
  import opened Options
  import opened Texts
  import opened Accounts

  datatype Outcome = Done | Conflict | Unauthorized | LastAdmin | Refused

  type Rows = map<string, Account>

  // ---------------------------------------------------------------- the rows

  /** Addresses are keys; the directory index allows an id once. */
  ghost predicate RowsOk(rows: Rows) {
    && (forall e :: e in rows ==> rows[e].email == e && RowOk(rows[e]))
    && forall e, f :: e in rows && f in rows && e != f && rows[e].directory != "" ==> rows[e].directory != rows[f].directory
  }

  /** The address belongs to an active administrator or developer. */
  ghost predicate Administrator(rows: Rows, e: string) {
    e in rows && rows[e].active && (rows[e].role == "admin" || rows[e].role == "developer")
  }

  ghost predicate Authorized(rows: Rows, actor: string) {
    Administrator(rows, Lower(Trim(actor)))
  }

  ghost predicate HasPrivileged(rows: Rows) {
    exists e :: Administrator(rows, e)
  }

  predicate IsTaken(rows: Rows, directory: string, email: string) {
    directory != "" && exists e :: e in rows && e != email && rows[e].directory == directory
  }

  /** Another row holds this directory id. */
  ghost predicate InUse(rows: Rows, directory: string, email: string) {
    directory != "" && exists e :: e in rows && e != email && rows[e].directory == directory
  }

  // ---------------------------------------------------------------- directory sync on rows

  predicate SameIdentity(a: Account, b: Account) {
    a.email == b.email && a.role == b.role && a.source == b.source && a.directory == b.directory && a.username == b.username && a.active == b.active
  }

  /** The rows show the same account, at whatever revisions. */
  ghost predicate Alike(a: Account, b: Account) {
    a.(revision := b.revision) == b
  }

  /** One account of a preview, in a transaction that started at `current`. */
  function SyncOne(current: Rows, rows: Rows, user: Account): Option<Rows> {
    if user.email !in current then
      if user.source != "ldap" || user.email in rows || IsTaken(rows, user.directory, user.email) then None
      else Some(rows[user.email := user.(revision := 1)])
    else
      var was := current[user.email];
      if was.source != user.source || was.role != user.role then None
      else if was.source == "local" then (if SameIdentity(was, user) then Some(rows) else None)
      else if SameIdentity(was, user) then Some(rows)
      else if user.email !in rows || rows[user.email].revision != was.revision then Some(rows)
      else if IsTaken(rows, user.directory, user.email) then None
      else
        var row := rows[user.email];
        Some(rows[user.email := row.(directory := user.directory, username := user.username, active := user.active, revision := row.revision + 1)])
  }

  /** The first `n` accounts of a preview. */
  function SyncAll(current: Rows, next: seq<Account>, n: nat): Option<Rows>
    requires n <= |next|
  {
    if n == 0 then Some(current)
    else
      var before := SyncAll(current, next, n - 1);
      if before.None? then None else SyncOne(current, before.value, next[n - 1])
  }

  /** What becomes of an account: only its directory fields may change, and the
      revision rises exactly if one does. */
  ghost function Settled(current: Rows, user: Account): Account {
    if user.email !in current then user.(revision := 1)
    else
      var was := current[user.email];
      if Alike(was, user) then was
      else was.(directory := user.directory, username := user.username, active := user.active, revision := was.revision + 1)
  }

  /** What a sync may do to an account at all. */
  ghost predicate Compatible(current: Rows, user: Account) {
    if user.email !in current then user.source == "ldap"
    else
      && current[user.email].source == user.source && current[user.email].role == user.role
      && (user.source == "local" ==> Alike(current[user.email], user))
  }

  /** The rows when the first `n` accounts are settled. */
  ghost function SettledRows(current: Rows, next: seq<Account>, n: nat): Rows
    requires n <= |next|
  {
    if n == 0 then current else SettledRows(current, next, n - 1)[next[n - 1].email := Settled(current, next[n - 1])]
  }

  ghost predicate Named(next: seq<Account>, n: nat, e: string)
    requires n <= |next|
  {
    exists i :: 0 <= i < n && next[i].email == e
  }

  lemma NamedMore(next: seq<Account>, n: nat)
    requires n < |next|
    ensures forall e :: Named(next, n + 1, e) <==> Named(next, n, e) || e == next[n].email
  {
    forall e ensures Named(next, n + 1, e) <==> Named(next, n, e) || e == next[n].email {
      if e == next[n].email { assert next[n].email == e; }
    }
  }

  lemma NobodyNamed(next: seq<Account>)
    ensures forall e :: !Named(next, 0, e)
  {
  }

  lemma {:induction false} SettledRowsAre(current: Rows, next: seq<Account>, n: nat)
    requires n <= |next| && EmailsApart(next)
    ensures forall e :: e in SettledRows(current, next, n) <==> e in current || Named(next, n, e)
    ensures forall i :: 0 <= i < n ==> next[i].email in SettledRows(current, next, n) && SettledRows(current, next, n)[next[i].email] == Settled(current, next[i])
    ensures forall e :: e in current && !Named(next, n, e) ==> SettledRows(current, next, n)[e] == current[e]
  {
    hide Settled, Named;
    if n > 0 {
      SettledRowsAre(current, next, n - 1);
      NamedMore(next, n - 1);
      forall e | e in current && !Named(next, n, e) ensures SettledRows(current, next, n)[e] == current[e] {
        assert !Named(next, n - 1, e) && e != next[n - 1].email;
      }
    } else {
      NobodyNamed(next);
    }
  }

  lemma Unnamed(next: seq<Account>, n: nat)
    requires n < |next| && EmailsApart(next)
    ensures !Named(next, n, next[n].email)
  {
  }

  /** A step of a sync settles its account, or refuses it. */
  lemma SyncOneSettles(current: Rows, rows: Rows, user: Account)
    requires RowsOk(current) && (user.email in rows <==> user.email in current)
    requires user.email in current ==> rows[user.email] == current[user.email]
    requires RowOk(user)
    ensures SyncOne(current, rows, user).Some? <==>
      Compatible(current, user) && (InUse(rows, user.directory, user.email) ==> user.email in current && Alike(current[user.email], user))
    ensures SyncOne(current, rows, user).Some? ==> SyncOne(current, rows, user).value == rows[user.email := Settled(current, user)]
  {
    hide EmailOk, RoleOk, Trim;
  }

  lemma SettledRow(current: Rows, user: Account)
    requires RowsOk(current) && RowOk(user) && Compatible(current, user)
    ensures RowOk(Settled(current, user)) && Alike(Settled(current, user), user)
  {
    hide EmailOk, RoleOk, Trim;
  }

  /** Storing a row keeps the rows in order when no other row holds its directory id. */
  lemma StoredOne(rows: Rows, a: Account)
    requires RowsOk(rows) && RowOk(a)
    requires InUse(rows, a.directory, a.email) ==> a.email in rows && rows[a.email].directory == a.directory
    ensures RowsOk(rows[a.email := a])
  {
    hide RowOk;
  }

  /** What a sync that gets through leaves. */
  lemma {:induction false} SyncSettles(current: Rows, next: seq<Account>, n: nat)
    requires n <= |next| && RowsOk(current) && EmailsApart(next) && (forall u :: u in next ==> RowOk(u))
    requires SyncAll(current, next, n).Some?
    ensures SyncAll(current, next, n).value == SettledRows(current, next, n) && RowsOk(SettledRows(current, next, n))
    ensures forall i :: 0 <= i < n ==> Compatible(current, next[i])
  {
    hide RowOk, RowsOk, SyncOne, Settled, Compatible, InUse, Alike;
    if n > 0 {
      SyncSettles(current, next, n - 1);
      var user, rows := next[n - 1], SettledRows(current, next, n - 1);
      SettledRowsAre(current, next, n - 1);
      Unnamed(next, n - 1);
      SyncOneSettles(current, rows, user);
      SettledRow(current, user);
      SettledStored(current, rows, user);
    }
  }

  /** Account `i` may be stored after the ones before it: a sync may do that to it at
      all, and unless nothing changes no other row holds its directory id. */
  ghost predicate Storable(current: Rows, next: seq<Account>, i: nat)
    requires i < |next|
  {
    var user := next[i];
    && Compatible(current, user)
    && (InUse(SettledRows(current, next, i), user.directory, user.email) ==> user.email in current && Alike(current[user.email], user))
  }

  /** A sync gets through exactly if every account may be stored. */
  lemma {:induction false} SyncGetsThrough(current: Rows, next: seq<Account>, n: nat)
    requires n <= |next| && RowsOk(current) && EmailsApart(next) && (forall u :: u in next ==> RowOk(u))
    ensures SyncAll(current, next, n).Some? <==> forall i :: 0 <= i < n ==> Storable(current, next, i)
  {
    hide RowOk, RowsOk, SyncOne, Settled, Compatible, InUse, Alike;
    if n > 0 {
      SyncGetsThrough(current, next, n - 1);
      if SyncAll(current, next, n - 1).Some? {
        SyncSettles(current, next, n - 1);
        SettledRowsAre(current, next, n - 1);
        Unnamed(next, n - 1);
        SyncOneSettles(current, SettledRows(current, next, n - 1), next[n - 1]);
        assert next[n - 1] in next;
        assert SyncAll(current, next, n).Some? <==> Storable(current, next, n - 1);
      }
    }
  }

  lemma SettledStored(current: Rows, rows: Rows, user: Account)
    requires RowsOk(rows) && RowOk(Settled(current, user)) && Alike(Settled(current, user), user)
    requires (user.email in rows <==> user.email in current) && (user.email in current ==> rows[user.email] == current[user.email])
    requires InUse(rows, user.directory, user.email) ==> user.email in current && Alike(current[user.email], user)
    ensures RowsOk(rows[user.email := Settled(current, user)])
  {
    hide RowOk, RowsOk, InUse;
    StoredOne(rows, Settled(current, user));
  }

  /** No account of the list takes a directory id from another row. */
  ghost predicate Harmless(current: Rows, next: seq<Account>) {
    forall i :: 0 <= i < |next| ==> !InUse(current, next[i].directory, next[i].email)
  }

  lemma StillFree(current: Rows, next: seq<Account>, n: nat)
    requires n < |next| && EmailsApart(next) && DirectoriesApart(next) && Harmless(current, next)
    ensures !InUse(SettledRows(current, next, n), next[n].directory, next[n].email)
  {
    hide SettledRows;
    SettledRowsAre(current, next, n);
    var user, rows := next[n], SettledRows(current, next, n);
    assert !InUse(current, user.directory, user.email);
  }

  /** A harmless list with only compatible accounts gets through. */
  lemma {:induction false} HarmlessGetsThrough(current: Rows, next: seq<Account>, n: nat)
    requires n <= |next| && RowsOk(current) && EmailsApart(next) && DirectoriesApart(next) && Harmless(current, next)
    requires forall i :: 0 <= i < |next| ==> RowOk(next[i])
    requires forall i :: 0 <= i < |next| ==> Compatible(current, next[i])
    ensures SyncAll(current, next, n) == Some(SettledRows(current, next, n))
  {
    hide RowOk, RowsOk, SyncOne, Settled, Compatible, InUse, Alike;
    if n > 0 {
      HarmlessGetsThrough(current, next, n - 1);
      SettledRowsAre(current, next, n - 1);
      Unnamed(next, n - 1);
      StillFree(current, next, n - 1);
      SyncOneSettles(current, SettledRows(current, next, n - 1), next[n - 1]);
    }
  }

  /** The first accounts of an empty catalog. */
  lemma {:induction false} FirstRowsOk(next: seq<Account>, n: nat)
    requires n <= |next| && EmailsApart(next) && DirectoriesApart(next)
    requires forall i :: 0 <= i < |next| ==> RowOk(next[i])
    ensures RowsOk(SettledRows(map[], next, n))
  {
    hide RowsOk, InUse, EmailOk, RoleOk, Trim;
    if n > 0 {
      FirstRowsOk(next, n - 1);
      assert Harmless(map[], next) by { NobodyUses(next); }
      StillFree(map[], next, n - 1);
      StoredOne(SettledRows(map[], next, n - 1), Settled(map[], next[n - 1]));
    } else {
      assert RowsOk(map[]) by { NoRowsOk(); }
    }
  }

  lemma NoRowsOk()
    ensures RowsOk(map[])
  {
  }

  lemma NobodyUses(next: seq<Account>)
    ensures Harmless(map[], next)
  {
  }

  /** Every row is in the list. */
  ghost predicate Covers(next: seq<Account>, rows: Rows) {
    forall e :: e in rows ==> e in Emails(next)
  }

  ghost function Emails(next: seq<Account>): set<string> {
    set i | 0 <= i < |next| :: next[i].email
  }

  /** A sync that covers all rows leaves as many privileged accounts as its list has. */
  lemma PrivilegeFollows(current: Rows, next: seq<Account>)
    requires RowsOk(current) && EmailsApart(next) && Covers(next, current)
    requires forall i :: 0 <= i < |next| ==> RowOk(next[i])
    requires forall i :: 0 <= i < |next| ==> Compatible(current, next[i])
    ensures HasPrivileged(SettledRows(current, next, |next|)) <==> SomePrivileged(next)
  {
    hide RowOk, RowsOk, Compatible, SettledRows;
    var rows := SettledRows(current, next, |next|);
    SettledRowsAre(current, next, |next|);
    forall i | 0 <= i < |next| ensures next[i].email in rows && (Privileged(rows[next[i].email]) <==> Privileged(next[i])) {
      SettledRow(current, next[i]);
    }
    if HasPrivileged(rows) {
      var e :| Administrator(rows, e);
      assert Named(next, |next|, e);
      var i :| 0 <= i < |next| && next[i].email == e;
      assert Privileged(next[i]);
    }
    if SomePrivileged(next) {
      var a :| a in next && Privileged(a);
      var i :| 0 <= i < |next| && next[i] == a;
      assert Administrator(rows, next[i].email);
    }
  }

  // ---------------------------------------------------------------- accepted lists

  /** Sorting and normalizing keep what makes a list acceptable. */
  lemma AcceptedFacts(users: seq<Account>, next: seq<Account>)
    requires Acceptable(users, true) && Ascending(next) && multiset(next) == multiset(Normals(users))
    ensures EmailsApart(next) && DirectoriesApart(next) && SomePrivileged(next)
    ensures forall i :: 0 <= i < |next| ==> RowOk(next[i])
    ensures forall a :: a in next <==> a in Normals(users)
  {
    hide Normal, RowOk, Privileged;
    var normals := Normals(users);
    forall a ensures a in next <==> a in normals { assert a in multiset(next) <==> a in multiset(normals); }
    forall i, j | 0 <= i < j < |next| ensures next[i].email != next[j].email { TextOrder(next[i].email, next[j].email); }
    forall i, j | 0 <= i < j < |next| && next[i].directory != "" ensures next[i].directory != next[j].directory {
      assert next[i] in normals && next[j] in normals;
      var k :| 0 <= k < |normals| && normals[k] == next[i];
      var l :| 0 <= l < |normals| && normals[l] == next[j];
      assert next[i].email != next[j].email && k != l;
      if l < k { assert normals[l].directory != "" ==> normals[l].directory != normals[k].directory; }
    }
    forall i | 0 <= i < |next| ensures RowOk(next[i]) {
      assert next[i] in normals;
      var k :| 0 <= k < |normals| && normals[k] == next[i];
      NormalIsStored(users[k], k == 0);
    }
  }

  // ---------------------------------------------------------------- the catalog

  /** The catalog as stored. Each method is one transaction: it happens as a whole
      or not at all. */
  class Catalog {
    var rows: Rows
    var version: int

    /** Unless setup is still to come, an active privileged account is there. */
    ghost predicate Valid()
      reads this
    {
      RowsOk(rows) && (rows != map[] ==> HasPrivileged(rows))
    }

    constructor ()
      ensures Valid() && rows == map[] && version == 0
    {
      rows, version := map[], 0;
      new;
      NoRowsOk();
    }

    /** The accounts named at setup. */
    method Seed(users: seq<Account>) returns (outcome: Outcome)
      requires Valid()
      modifies this
      ensures Valid()
      ensures outcome == Done <==> users != [] && Acceptable(users, true) && old(rows) == map[]
      ensures outcome == Done ==> version == old(version) + 1 && HasPrivileged(rows)
      ensures outcome == Done ==> rows == Synced(map[], users)
      ensures outcome != Done ==> rows == old(rows) && version == old(version)
    {
      hide RowsOk, ByEmail, SettledRows, HasPrivileged, AllNormal;
      if users == [] {
        return Refused;
      }
      var normalized := NormalizeCatalog(users, true);
      if normalized.None? || rows != map[] {
        return Refused;
      }
      SeededIsPrivileged(users);
      var next := normalized.value;
      var seeded := FirstRows(next);
      rows, version := seeded, version + 1;
      return Done;
    }

    /** What every mutation asks first. */
    method Begin(expected: int, actor: string) returns (refused: Option<Outcome>)
      ensures refused == None <==> expected == version && Authorized(rows, actor)
      ensures refused.Some? ==> refused.value == if expected != version then Conflict else Unauthorized
    {
      if expected != version {
        return Some(Conflict);
      }
      var e := Lower(Trim(actor));
      return if e in rows && Privileged(rows[e]) then None else Some(Unauthorized);
    }

    method Create(actor: string, expected: Option<int>, email: string, role: string) returns (outcome: Outcome)
      requires Valid()
      modifies this
      ensures Valid()
      ensures outcome == Done <==>
        && expected == Some(old(version)) && Authorized(old(rows), actor)
        && EmailOk(Lower(Trim(email))) && (Trim(role) == "" || RoleOk(Lower(Trim(role)))) && Lower(Trim(email)) !in old(rows)
      ensures outcome == Done ==> version == old(version) + 1 && HasPrivileged(rows)
      ensures outcome == Done ==> rows == old(rows)[Lower(Trim(email)) := NewRow(email, role)]
      ensures outcome != Done ==> rows == old(rows) && version == old(version)
    {
      hide RowsOk, HasPrivileged, Drafted, Authorized, RoleOk, NewRow, EmailOk, Trim, Lower;
      DraftIs(email, role);
      if expected.None? {
        return Refused;
      }
      var draft := Drafted(email, role);
      if draft.None? {
        return Refused;
      }
      var refused := Begin(expected.value, actor);
      if refused.Some? {
        return refused.value;
      }
      if draft.value.email in rows {
        return Refused;
      }
      CreatedIsOk(rows, actor, email, role);
      var next := rows[draft.value.email := draft.value];
      outcome := Ensured(next);
      if outcome == Done {
        rows, version := next, version + 1;
      }
    }

    method Update(actor: string, expected: Option<int>, email: string, role: string, revision: int) returns (outcome: Outcome)
      requires Valid()
      modifies this
      ensures Valid()
      ensures outcome == Done <==>
        && expected == Some(old(version)) && Authorized(old(rows), actor) && revision >= 1
        && NamesRow(old(rows), email, revision) && RoleOk(Lower(Trim(role)))
        && ((exists e :: e != Lower(Trim(email)) && Administrator(old(rows), e))
            || (old(rows)[Lower(Trim(email))].active && Lower(Trim(role)) in {"admin", "developer"}))
      ensures outcome == Done ==> version == old(version) + 1 && HasPrivileged(rows)
      ensures outcome == Done ==> (var e := Lower(Trim(email));
        e in old(rows) && rows == old(rows)[e := old(rows)[e].(role := Lower(Trim(role)), revision := revision + 1)])
      ensures outcome != Done ==> rows == old(rows) && version == old(version)
    {
      hide RowsOk, HasPrivileged, Administrator, Authorized, Promoted, CanonicalEmail, Roles, RoleOk, EmailOk, Trim, Lower;
      CanonicalIs(email);
      RolesAre(Lower(Trim(role)));
      if expected.None? || revision < 1 {
        return Refused;
      }
      var canonical := CanonicalEmail(email);
      if canonical.None? || Lower(Trim(role)) !in Roles {
        return Refused;
      }
      var refused := Begin(expected.value, actor);
      if refused.Some? {
        return refused.value;
      }
      if canonical.value !in rows || rows[canonical.value].revision != revision {
        return Conflict;
      }
      PromotedIsOk(rows, canonical.value, Lower(Trim(role)));
      PromotedRemains(rows, canonical.value, Lower(Trim(role)));
      var next := Promoted(rows, canonical.value, Lower(Trim(role)));
      outcome := Ensured(next);
      if outcome == Done {
        rows, version := next, version + 1;
      }
    }

    /** `referenced`: the policy documents that name each address. */
    method Delete(actor: string, expected: Option<int>, email: string, revision: int, referenced: set<string>) returns (outcome: Outcome)
      requires Valid()
      modifies this
      ensures Valid()
      ensures outcome == Done <==>
        && expected == Some(old(version)) && Authorized(old(rows), actor) && revision >= 1
        && NamesRow(old(rows), email, revision) && old(rows)[Lower(Trim(email))].source != "ldap"
        && Lower(Trim(email)) !in referenced && (exists e :: e != Lower(Trim(email)) && Administrator(old(rows), e))
      ensures outcome == Done ==> version == old(version) + 1 && HasPrivileged(rows)
      ensures outcome == Done ==> rows == old(rows) - {Lower(Trim(email))}
      ensures outcome != Done ==> rows == old(rows) && version == old(version)
    {
      hide RowsOk, HasPrivileged, Administrator, Authorized, CanonicalEmail, EmailOk, Trim, Lower;
      CanonicalIs(email);
      if expected.None? || revision < 1 {
        return Refused;
      }
      var canonical := CanonicalEmail(email);
      if canonical.None? {
        return Refused;
      }
      var refused := Begin(expected.value, actor);
      if refused.Some? {
        return refused.value;
      }
      if canonical.value !in rows || rows[canonical.value].revision != revision {
        return Conflict;
      }
      if rows[canonical.value].source == "ldap" || canonical.value in referenced {
        return Refused;
      }
      FewerRowsOk(rows, canonical.value);
      FewerRemain(rows, canonical.value);
      var next := rows - {canonical.value};
      outcome := Ensured(next);
      if outcome == Done {
        rows, version := next, version + 1;
      }
    }

    /** Commits a preview that was calculated from the version it names. */
    method ApplyPreview(actor: string, expected: int, preview: seq<Account>) returns (outcome: Outcome)
      requires Valid()
      modifies this
      ensures Valid()
      ensures outcome == Done <==> Applicable(old(rows), preview) && expected == old(version) && Authorized(old(rows), actor)
      ensures outcome == Done ==> version == old(version) + 1 && HasPrivileged(rows)
      ensures outcome == Done ==> rows == Synced(old(rows), preview)
      ensures outcome != Done ==> rows == old(rows) && version == old(version)
    {
      hide RowsOk, HasPrivileged, Authorized, ByEmail, Acceptable, SettledRows, SyncOne, Compatible, Applicable, Normals;
      var normalized := NormalizeCatalog(preview, true);
      if normalized.None? {
        NotApplicable(rows, preview);
        return Refused;
      }
      var refused := Begin(expected, actor);
      if refused.Some? {
        return refused.value;
      }
      var next := normalized.value;
      assert next == ByEmail(Normals(preview)) by { PreviewIsNormal(preview); }
      PreviewGetsThrough(rows, preview);
      var working := rows;
      var seen: set<string> := {};
      var i := 0;
      while i < |next|
        invariant 0 <= i <= |next|
        invariant SyncAll(rows, next, i) == Some(working)
        invariant rows == old(rows) && version == old(version)
        invariant seen == set k | 0 <= k < i :: next[k].email
      {
        var step := SyncOne(rows, working, next[i]);
        if step.None? {
          SyncStops(rows, next, i + 1);
          return Refused;
        }
        working := step.value;
        seen := seen + {next[i].email};
        i := i + 1;
      }
      assert seen == Emails(next);
      if !AllSeen(rows, seen) {
        return Refused;
      }
      SyncedIsOk(rows, preview);
      outcome := Ensured(working);
      if outcome == Done {
        rows, version := working, version + 1;
      }
    }
  }

  function Drafted(email: string, role: string): Option<Account> {
    var draft := Normal(Account(email, role, "local", "", "", true, 0), true);
    draft
  }

  /** A privileged account must remain. */
  function Ensured(rows: Rows): (outcome: Outcome)
    ensures outcome == Done <==> HasPrivileged(rows)
  {
    assert forall e :: Administrator(rows, e) <==> e in rows && Privileged(rows[e]);
    if exists e :: e in rows && Privileged(rows[e]) then Done else LastAdmin
  }

  /** The row of a new local account; without a role it becomes an administrator. */
  ghost function NewRow(email: string, role: string): Account {
    Account(Lower(Trim(email)), if Trim(role) == "" then "admin" else Lower(Trim(role)), "local", "", "", true, 1)
  }

  lemma DraftIs(email: string, role: string)
    ensures Drafted(email, role).Some? <==> EmailOk(Lower(Trim(email))) && (Trim(role) == "" || RoleOk(Lower(Trim(role))))
    ensures Drafted(email, role).Some? ==> Drafted(email, role).value == NewRow(email, role) && NewRow(email, role).email == Lower(Trim(email))
  {
    hide EmailOk, Trim, Lower;
    var input := Account(email, role, "local", "", "", true, 0);
    assert |Lower(Trim(role))| == |Trim(role)|;
    SourceIsPlain("local");
    assert Trim("") == "" by { BlankIsTrimmed(); }
    NormalIs(input, true, NewRow(email, role));
    if Drafted(email, role).Some? { NormalIs(input, true, Drafted(email, role).value); }
  }

  lemma BlankIsTrimmed()
    ensures Trim("") == ""
  {
  }

  /** The request names a row at the revision it has. */
  ghost predicate NamesRow(rows: Rows, email: string, revision: int) {
    var e := Lower(Trim(email));
    EmailOk(e) && e in rows && rows[e].revision == revision
  }

  function Promoted(rows: Rows, e: string, role: string): Rows
    requires e in rows
  {
    rows[e := rows[e].(role := role, revision := rows[e].revision + 1)]
  }

  predicate AllSeen(rows: Rows, seen: set<string>) {
    forall e :: e in rows ==> e in seen
  }

  lemma NotApplicable(rows: Rows, preview: seq<Account>)
    requires !Acceptable(preview, true)
    ensures !Applicable(rows, preview)
  {
  }

  lemma PreviewGetsThrough(rows: Rows, preview: seq<Account>)
    requires RowsOk(rows) && Acceptable(preview, true)
    ensures AllNormal(preview)
    ensures var next := ByEmail(Normals(preview)); Applicable(rows, preview) <==> SyncAll(rows, next, |next|).Some? && Covers(next, rows)
  {
    hide Acceptable, RowsOk, RowOk, ByEmail, SyncAll, Normals, Storable, Covers;
    PreviewIsNormal(preview);
    var next := ByEmail(Normals(preview));
    ByEmailKeeps(Normals(preview));
    PreviewAscends(preview);
    AcceptedFacts(preview, next);
    SyncGetsThrough(rows, next, |next|);
  }

  method FirstRows(next: seq<Account>) returns (rows: Rows)
    ensures rows == SettledRows(map[], next, |next|)
  {
    hide SettledRows;
    rows := map[];
    assert SettledRows(map[], next, 0) == map[] by { NobodySettled(next); }
    for i := 0 to |next|
      invariant rows == SettledRows(map[], next, i)
    {
      SeededMore(next, i);
      rows := rows[next[i].email := next[i].(revision := 1)];
    }
  }

  lemma NobodySettled(next: seq<Account>)
    ensures SettledRows(map[], next, 0) == map[]
  {
  }

  lemma SeededMore(next: seq<Account>, i: nat)
    requires i < |next|
    ensures SettledRows(map[], next, i + 1) == SettledRows(map[], next, i)[next[i].email := next[i].(revision := 1)]
  {
  }

  /** The preview passes its own checks and the checks against the rows. */
  ghost predicate Applicable(rows: Rows, preview: seq<Account>) {
    && Acceptable(preview, true)
    && var next := ByEmail(Normals(preview)); Covers(next, rows) && forall i :: 0 <= i < |next| ==> Storable(rows, next, i)
  }

  /** The rows after an applied preview. */
  ghost function Synced(rows: Rows, preview: seq<Account>): Rows
    requires AllNormal(preview)
  {
    var next := ByEmail(Normals(preview));
    SettledRows(rows, next, |next|)
  }

  lemma SeededIsPrivileged(users: seq<Account>)
    requires Acceptable(users, true)
    ensures AllNormal(users) && RowsOk(Synced(map[], users)) && HasPrivileged(Synced(map[], users))
  {
    hide Acceptable, RowsOk, SettledRows, RowOk, ByEmail, Normals;
    PreviewIsNormal(users);
    var next := ByEmail(Normals(users));
    ByEmailKeeps(Normals(users));
    PreviewAscends(users);
    AcceptedFacts(users, next);
    FirstRowsOk(next, |next|);
    FirstRowsPrivileged(next);
  }

  lemma FirstRowsPrivileged(next: seq<Account>)
    requires EmailsApart(next) && SomePrivileged(next)
    ensures HasPrivileged(SettledRows(map[], next, |next|))
  {
    hide SettledRows, Settled, EmailsApart;
    var none: Rows := map[];
    SettledRowsAre(none, next, |next|);
    var a :| a in next && a.active && (a.role == "admin" || a.role == "developer");
    var i: nat :| i < |next| && next[i] == a;
    SettledFirst(none, next[i]);
    var rows := SettledRows(none, next, |next|);
    assert next[i].email in rows && rows[next[i].email] == Settled(none, next[i]);
    assert Administrator(rows, next[i].email);
  }

  lemma SettledFirst(current: Rows, a: Account)
    requires a.email !in current
    ensures Settled(current, a) == a.(revision := 1)
  {
  }

  lemma CreatedIsOk(rows: Rows, actor: string, email: string, role: string)
    requires RowsOk(rows) && Authorized(rows, actor)
    requires Drafted(email, role).Some? && Drafted(email, role).value.email !in rows
    ensures RowsOk(rows[Drafted(email, role).value.email := Drafted(email, role).value])
    ensures HasPrivileged(rows[Drafted(email, role).value.email := Drafted(email, role).value])
  {
    hide Normal, RowsOk, RowOk;
    var draft := Drafted(email, role).value;
    NormalIsStored(Account(email, role, "local", "", "", true, 0), true);
    DraftIsLocal(email, role);
    StoredOne(rows, draft);
    var e := Lower(Trim(actor));
    assert Administrator(rows[draft.email := draft], e);
  }

  lemma DraftIsLocal(email: string, role: string)
    requires Drafted(email, role).Some?
    ensures Drafted(email, role).value.directory == ""
  {
    hide CanonicalEmail, RoleOf, Roles;
    SourceIsPlain("local");
  }

  lemma CanonicalIs(email: string)
    ensures var e := Lower(Trim(email)); CanonicalEmail(email) == if EmailOk(e) then Some(e) else None
  {
    hide EmailOk, Lower, Trim;
  }

  lemma RolesAre(role: string)
    ensures role in Roles <==> RoleOk(role)
  {
  }

  lemma PromotedRemains(rows: Rows, e: string, role: string)
    requires e in rows
    ensures HasPrivileged(Promoted(rows, e, role)) <==>
      (exists f :: f != e && Administrator(rows, f)) || (rows[e].active && role in {"admin", "developer"})
    ensures Promoted(rows, e, role) == rows[e := rows[e].(role := role, revision := rows[e].revision + 1)]
  {
    var after := Promoted(rows, e, role);
    forall f ensures Administrator(after, f) <==> if f == e then rows[e].active && role in {"admin", "developer"} else Administrator(rows, f) { }
    assert Administrator(after, e) <==> rows[e].active && role in {"admin", "developer"};
  }

  lemma FewerRemain(rows: Rows, e: string)
    ensures HasPrivileged(rows - {e}) <==> exists f :: f != e && Administrator(rows, f)
  {
    forall f ensures Administrator(rows - {e}, f) <==> f != e && Administrator(rows, f) { }
  }

  lemma PromotedIsOk(rows: Rows, e: string, role: string)
    requires RowsOk(rows) && e in rows && RoleOk(role)
    ensures RowsOk(Promoted(rows, e, role))
  {
    hide EmailOk, RoleOk, Trim;
    StoredOne(rows, Promoted(rows, e, role)[e]);
  }

  lemma FewerRowsOk(rows: Rows, e: string)
    requires RowsOk(rows)
    ensures RowsOk(rows - {e})
  {
    hide RowOk;
  }

  lemma PreviewIsNormal(preview: seq<Account>)
    requires Acceptable(preview, true)
    ensures AllNormal(preview)
  {
  }

  lemma {:induction false} SyncStops(current: Rows, next: seq<Account>, n: nat)
    requires n <= |next| && SyncAll(current, next, n).None?
    ensures SyncAll(current, next, |next|).None?
    decreases |next| - n
  {
    hide SyncOne;
    if n < |next| { SyncStops(current, next, n + 1); }
  }

  /** The revision rises exactly if something else changed. */
  ghost predicate RevisionFollows(was: Account, now: Account) {
    now.revision == was.revision + (if Alike(was, now) then 0 else 1)
  }

  /** Whatever preview gets through leaves a catalog in order, with an active
      privileged account; only directory fields of directory accounts differ. */
  lemma SyncedIsOk(rows: Rows, preview: seq<Account>)
    requires RowsOk(rows) && Applicable(rows, preview)
    ensures RowsOk(Synced(rows, preview)) && HasPrivileged(Synced(rows, preview))
    ensures SyncAll(rows, ByEmail(Normals(preview)), |ByEmail(Normals(preview))|) == Some(Synced(rows, preview))
    ensures forall e :: e in Synced(rows, preview) <==> exists a :: a in Normals(preview) && a.email == e
    ensures forall a :: a in Normals(preview) ==> a.email in Synced(rows, preview) && Alike(Synced(rows, preview)[a.email], a)
    ensures forall e :: e in rows ==> e in Synced(rows, preview) && Synced(rows, preview)[e].role == rows[e].role && Synced(rows, preview)[e].source == rows[e].source
    ensures forall e :: e in rows && rows[e].source == "local" ==> Synced(rows, preview)[e] == rows[e]
    ensures forall e :: e in Synced(rows, preview) && e !in rows ==> Synced(rows, preview)[e].source == "ldap"
    ensures forall e :: e in rows ==> RevisionFollows(rows[e], Synced(rows, preview)[e])
  {
    hide Acceptable, RowsOk, SettledRows, RowOk, HasPrivileged, ByEmail, SyncAll, Normals, Compatible, SomePrivileged;
    PreviewIsNormal(preview);
    var next := ByEmail(Normals(preview));
    ByEmailKeeps(Normals(preview));
    PreviewAscends(preview);
    AcceptedFacts(preview, next);
    SyncGetsThrough(rows, next, |next|);
    SyncSettles(rows, next, |next|);
    SettledRowsAre(rows, next, |next|);
    PrivilegeFollows(rows, next);
    SyncedRows(rows, next);
    assert forall a :: a in Normals(preview) <==> a in next;
    forall a | a in Normals(preview) ensures a.email in Synced(rows, preview) && Alike(Synced(rows, preview)[a.email], a) {
      var i :| 0 <= i < |next| && next[i] == a;
    }
    forall e ensures e in Synced(rows, preview) <==> exists a :: a in Normals(preview) && a.email == e {
      if e in Synced(rows, preview) {
        var i :| 0 <= i < |next| && next[i].email == e;
        assert next[i] in next;
      }
    }
  }

  lemma PreviewAscends(preview: seq<Account>)
    requires Acceptable(preview, true)
    ensures Ascending(ByEmail(Normals(preview)))
  {
    ByEmailAscends(Normals(preview));
  }

  lemma SyncedRows(rows: Rows, next: seq<Account>)
    requires RowsOk(rows) && EmailsApart(next) && Covers(next, rows)
    requires forall i :: 0 <= i < |next| ==> RowOk(next[i])
    requires forall i :: 0 <= i < |next| ==> Compatible(rows, next[i])
    ensures var after := SettledRows(rows, next, |next|);
      && (forall e :: e in after ==> exists i :: 0 <= i < |next| && next[i].email == e)
      && (forall i :: 0 <= i < |next| ==> next[i].email in after && Alike(after[next[i].email], next[i]))
      && (forall e :: e in rows ==> e in after && after[e].role == rows[e].role && after[e].source == rows[e].source)
      && (forall e :: e in rows && rows[e].source == "local" ==> after[e] == rows[e])
      && (forall e :: e in after && e !in rows ==> after[e].source == "ldap")
      && (forall e :: e in rows ==> RevisionFollows(rows[e], after[e]))
  {
    hide RowOk, SettledRows;
    SettledRowsAre(rows, next, |next|);
    var after := SettledRows(rows, next, |next|);
    forall i | 0 <= i < |next| ensures Alike(after[next[i].email], next[i]) { SettledRow(rows, next[i]); }
    forall e | e in after ensures exists i :: 0 <= i < |next| && next[i].email == e && after[e] == Settled(rows, next[i]) && Compatible(rows, next[i]) {
      assert Named(next, |next|, e);
      var i :| 0 <= i < |next| && next[i].email == e;
    }
  }
}
