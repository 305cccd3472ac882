/** The directory sync: a preview is calculated from the catalog and the entries
    of the directory, and applied later if nothing has changed. */
module DirectorySync {
  import opened Options
  import opened Texts
  import opened Accounts
  import opened AccountCatalogs

  datatype Entry = Entry(directory: string, username: string, email: string)

  /** What the directory reader lets through. */
  ghost predicate EntriesOk(entries: seq<Entry>) {
    forall i :: 0 <= i < |entries| ==> EntryOk(entries[i])
  }

  predicate EntryOk(e: Entry) {
    e.directory != "" && Trim(e.directory) == e.directory && EmailOk(e.email)
  }

  ghost predicate UsersOk(users: seq<Account>) {
    (forall i :: 0 <= i < |users| ==> RowOk(users[i])) && EmailsApart(users) && DirectoriesApart(users)
  }

  // ---------------------------------------------------------------- what a preview says

  /** The account of a directory id is at `i`. */
  predicate HasId(users: seq<Account>, i: nat, id: string) {
    i < |users| && users[i].source == "ldap" && users[i].directory == id
  }

  predicate Known(users: seq<Account>, id: string) {
    exists i: nat :: i < |users| && HasId(users, i, id)
  }

  predicate Listed(entries: seq<Entry>, n: nat, id: string)
    requires n <= |entries|
  {
    exists k: nat :: k < n && entries[k].directory == id
  }

  /** Entry `k` is the first of an id the catalog does not know. */
  predicate Newcomer(users: seq<Account>, entries: seq<Entry>, k: nat)
    requires k < |entries|
  {
    !Known(users, entries[k].directory) && !Listed(entries, k, entries[k].directory)
  }

  /** The address of entry `k` belongs to an account of the catalog or to an earlier
      newcomer. */
  ghost predicate Owned(users: seq<Account>, entries: seq<Entry>, k: nat)
    requires k < |entries|
  {
    || (exists i: nat :: i < |users| && users[i].email == entries[k].email)
    || (exists j: nat :: j < k && Newcomer(users, entries, j) && entries[j].email == entries[k].email)
  }

  ghost predicate Clash(users: seq<Account>, entries: seq<Entry>, k: nat)
    requires k < |entries|
  {
    Newcomer(users, entries, k) && Owned(users, entries, k)
  }

  /** The user name that the last entry of an id gives. */
  function LastName(entries: seq<Entry>, n: nat, id: string): string
    requires n <= |entries|
  {
    if n == 0 then "" else if entries[n - 1].directory == id then entries[n - 1].username else LastName(entries, n - 1, id)
  }

  /** A catalog account after the first `n` entries. */
  function Touched(u: Account, entries: seq<Entry>, n: nat): Account
    requires n <= |entries|
  {
    if u.source == "ldap" && Listed(entries, n, u.directory) then u.(username := LastName(entries, n, u.directory), active := true) else u
  }

  /** The newcomers among the first `n` entries. */
  function Joined(users: seq<Account>, entries: seq<Entry>, n: nat): seq<nat>
    requires n <= |entries|
  {
    if n == 0 then []
    else if Newcomer(users, entries, n - 1) then Joined(users, entries, n - 1) + [n - 1]
    else Joined(users, entries, n - 1)
  }

  function Admitted(entries: seq<Entry>, k: nat, n: nat): Account
    requires k < |entries| && n <= |entries|
  {
    Account(entries[k].email, "viewer", "ldap", entries[k].directory, LastName(entries, n, entries[k].directory), true, 0)
  }

  /** Accounts of the catalog, then the newcomers. */
  ghost predicate Drawn(users: seq<Account>, entries: seq<Entry>, n: nat, list: seq<Account>)
    requires n <= |entries|
  {
    var joined := Joined(users, entries, n);
    && |list| == |users| + |joined|
    && (forall i :: 0 <= i < |users| ==> list[i] == Touched(users[i], entries, n))
    && (forall i :: 0 <= i < |joined| ==> joined[i] < n && list[|users| + i] == Admitted(entries, joined[i], n))
  }

  /** Accounts whose id the directory no longer lists are switched off. */
  function Retired(a: Account, entries: seq<Entry>): Account {
    if a.source == "ldap" && !Listed(entries, |entries|, a.directory) then a.(active := false) else a
  }

  /** A preview: every catalog account refreshed or retired, and every newcomer. */
  ghost predicate Previewed(users: seq<Account>, entries: seq<Entry>, preview: seq<Account>) {
    var joined := Joined(users, entries, |entries|);
    && |preview| == |users| + |joined|
    && (forall i :: 0 <= i < |users| ==> preview[i] == Retired(Touched(users[i], entries, |entries|), entries))
    && (forall i :: 0 <= i < |joined| ==> joined[i] < |entries| && preview[|users| + i] == Admitted(entries, joined[i], |entries|))
  }

  lemma {:induction false} JoinedAre(users: seq<Account>, entries: seq<Entry>, n: nat)
    requires n <= |entries|
    ensures forall k: nat :: k in Joined(users, entries, n) <==> k < n && Newcomer(users, entries, k)
    ensures forall i, j :: 0 <= i < j < |Joined(users, entries, n)| ==> Joined(users, entries, n)[i] < Joined(users, entries, n)[j]
    ensures forall i :: 0 <= i < |Joined(users, entries, n)| ==> Joined(users, entries, n)[i] < n
  {
    hide Newcomer;
    if n > 0 {
      JoinedAre(users, entries, n - 1);
      var before := Joined(users, entries, n - 1);
      forall k: nat ensures k in Joined(users, entries, n) <==> k < n && Newcomer(users, entries, k) {
        assert k in before + [n - 1] <==> k in before || k == n - 1;
      }
    }
  }

  // ---------------------------------------------------------------- calculating a preview

  function Find(list: seq<Account>, id: string): (p: nat)
    ensures p <= |list| && (p < |list| ==> HasId(list, p, id))
    ensures p == |list| ==> forall i: nat :: i < |list| ==> !HasId(list, i, id)
  {
    if list == [] then 0
    else if list[0].source == "ldap" && list[0].directory == id then 0
    else
      var p := Find(list[1..], id);
      assert forall i: nat :: 0 < i < |list| ==> (HasId(list, i, id) <==> HasId(list[1..], i - 1, id));
      1 + p
  }

  function Refreshed(a: Account, entry: Entry): Account {
    Account(if a.email == "" then entry.email else a.email, a.role, "ldap", entry.directory, entry.username, true, a.revision)
  }

  /** Who holds which address. */
  ghost predicate OwnersAre(owners: map<string, string>, list: seq<Account>) {
    && (forall e :: e in owners <==> exists i: nat :: i < |list| && list[i].email == e)
    && (forall i: nat :: i < |list| ==> list[i].email in owners && owners[list[i].email] == list[i].directory)
  }

  /** The number of accounts that a sync switches off. */
  function Gone(list: seq<Account>, entries: seq<Entry>, n: nat): nat
    requires n <= |list|
  {
    if n == 0 then 0
    else Gone(list, entries, n - 1) + if list[n - 1].active && Retired(list[n - 1], entries) != list[n - 1] then 1 else 0
  }

  lemma {:induction false} ListedFirst(users: seq<Account>, entries: seq<Entry>, n: nat, id: string) returns (k: nat)
    requires n <= |entries| && Listed(entries, n, id) && !Known(users, id)
    ensures k < n && entries[k].directory == id && Newcomer(users, entries, k)
  {
    if Listed(entries, n - 1, id) { k := ListedFirst(users, entries, n - 1, id); } else { k := n - 1; }
  }

  lemma ListedMore(entries: seq<Entry>, n: nat)
    requires n < |entries|
    ensures forall id :: Listed(entries, n + 1, id) <==> Listed(entries, n, id) || id == entries[n].directory
  {
    forall id ensures Listed(entries, n + 1, id) <==> Listed(entries, n, id) || id == entries[n].directory {
      if id == entries[n].directory { assert entries[n].directory == id; }
    }
  }

  /** An id in the list is known or has joined; one that is not is neither. */
  lemma WhereIds(users: seq<Account>, entries: seq<Entry>, n: nat, list: seq<Account>, id: string)
    requires n <= |entries| && Drawn(users, entries, n, list)
    ensures (exists p: nat :: p < |list| && HasId(list, p, id)) <==> Known(users, id) || Listed(entries, n, id)
  {
    JoinedAre(users, entries, n);
    var joined := Joined(users, entries, n);
    if Known(users, id) {
      var i: nat :| i < |users| && HasId(users, i, id);
      assert HasId(list, i, id);
    } else if Listed(entries, n, id) {
      var k := ListedFirst(users, entries, n, id);
      assert k in joined;
      var i :| 0 <= i < |joined| && joined[i] == k;
      assert HasId(list, |users| + i, id);
    }
    if p: nat :| p < |list| && HasId(list, p, id) {
      if p < |users| {
        assert HasId(users, p, id);
      } else {
        assert list[|users| + (p - |users|)] == Admitted(entries, joined[p - |users|], n);
        assert entries[joined[p - |users|]].directory == id;
      }
    }
  }

  /** An entry whose account is in the list. */
  lemma DrawnRefreshed(users: seq<Account>, entries: seq<Entry>, n: nat, list: seq<Account>, p: nat)
    requires n < |entries| && UsersOk(users) && EntriesOk(entries) && Drawn(users, entries, n, list)
    requires HasId(list, p, entries[n].directory) && list[p].email != ""
    ensures Drawn(users, entries, n + 1, list[p := Refreshed(list[p], entries[n])])
    ensures !Newcomer(users, entries, n)
  {
    hide RowOk, EmailOk, Touched, Admitted, Refreshed, Newcomer;
    var id, entry := entries[n].directory, entries[n];
    var joined := Joined(users, entries, n);
    WhereIds(users, entries, n, list, id);
    JoinedAre(users, entries, n);
    assert !Newcomer(users, entries, n) by { NotNew(users, entries, n); }
    assert EntryOk(entry);
    var after := list[p := Refreshed(list[p], entry)];
    forall i | 0 <= i < |users| ensures after[i] == Touched(users[i], entries, n + 1) {
      TouchedNext(users[i], entries, n);
      TouchedKeeps(users[i], entries, n);
      if HasId(users, i, id) { KnownOnce(users, entries, n, list, i, p, id); }
    }
    forall i | 0 <= i < |joined| ensures after[|users| + i] == Admitted(entries, joined[i], n + 1) {
      JoinedAt(users, entries, n, list, i);
      AdmittedNext(entries, joined[i], n);
      AdmittedKeeps(entries, joined[i], n);
      if entries[joined[i]].directory == id { JoinedOnce(users, entries, n, list, i, p, id); }
    }
  }

  lemma NotNew(users: seq<Account>, entries: seq<Entry>, n: nat)
    requires n < |entries| && (Known(users, entries[n].directory) || Listed(entries, n, entries[n].directory))
    ensures !Newcomer(users, entries, n)
  {
  }

  lemma TouchedKeeps(u: Account, entries: seq<Entry>, n: nat)
    requires n <= |entries|
    ensures var t := Touched(u, entries, n); t.source == u.source && t.directory == u.directory && t.email == u.email && t.role == u.role
  {
  }

  lemma AdmittedKeeps(entries: seq<Entry>, k: nat, n: nat)
    requires k < |entries| && n <= |entries|
    ensures Admitted(entries, k, n).directory == entries[k].directory && Admitted(entries, k, n).email == entries[k].email
  {
  }

  lemma TouchedNext(u: Account, entries: seq<Entry>, n: nat)
    requires n < |entries|
    ensures Touched(u, entries, n + 1) ==
      if u.source == "ldap" && u.directory == entries[n].directory && u.email != "" then Refreshed(Touched(u, entries, n), entries[n])
      else if u.source == "ldap" && u.directory == entries[n].directory then Touched(u, entries, n + 1)
      else Touched(u, entries, n)
  {
    ListedMore(entries, n);
  }

  lemma AdmittedNext(entries: seq<Entry>, k: nat, n: nat)
    requires k < n < |entries|
    ensures Admitted(entries, k, n + 1) ==
      if entries[k].directory == entries[n].directory && entries[k].email != "" then Refreshed(Admitted(entries, k, n), entries[n])
      else if entries[k].directory == entries[n].directory then Admitted(entries, k, n + 1)
      else Admitted(entries, k, n)
  {
  }

  lemma KnownOnce(users: seq<Account>, entries: seq<Entry>, n: nat, list: seq<Account>, i: nat, p: nat, id: string)
    requires n <= |entries| && UsersOk(users) && Drawn(users, entries, n, list) && id != ""
    requires HasId(users, i, id) && HasId(list, p, id)
    ensures i == p
  {
    hide RowOk;
    JoinedAre(users, entries, n);
    var joined := Joined(users, entries, n);
    if p < |users| { assert HasId(users, p, id); } else { JoinedAt(users, entries, n, list, p - |users|); }
  }

  lemma JoinedAt(users: seq<Account>, entries: seq<Entry>, n: nat, list: seq<Account>, j: nat)
    requires n <= |entries| && Drawn(users, entries, n, list) && j < |Joined(users, entries, n)|
    ensures var k := Joined(users, entries, n)[j];
      k < n && Newcomer(users, entries, k) && list[|users| + j] == Admitted(entries, k, n)
  {
    JoinedAre(users, entries, n);
    assert Joined(users, entries, n)[j] in Joined(users, entries, n);
  }

  lemma NewcomersApart(users: seq<Account>, entries: seq<Entry>, j: nat, k: nat)
    requires j < |entries| && k < |entries| && Newcomer(users, entries, j) && Newcomer(users, entries, k)
    requires entries[j].directory == entries[k].directory
    ensures j == k
  {
  }

  lemma JoinedOnce(users: seq<Account>, entries: seq<Entry>, n: nat, list: seq<Account>, i: nat, p: nat, id: string)
    requires n <= |entries| && UsersOk(users) && Drawn(users, entries, n, list) && id != ""
    requires i < |Joined(users, entries, n)| && Joined(users, entries, n)[i] < n && entries[Joined(users, entries, n)[i]].directory == id && HasId(list, p, id)
    ensures |users| + i == p
  {
    hide RowOk;
    JoinedAre(users, entries, n);
    JoinedAt(users, entries, n, list, i);
    if p < |users| {
      HasIdDrawn(users, entries, n, list, p, id);
    } else {
      JoinedAt(users, entries, n, list, p - |users|);
      NewcomersApart(users, entries, Joined(users, entries, n)[i], Joined(users, entries, n)[p - |users|]);
    }
  }

  lemma HasIdDrawn(users: seq<Account>, entries: seq<Entry>, n: nat, list: seq<Account>, p: nat, id: string)
    requires n <= |entries| && Drawn(users, entries, n, list) && p < |users| && HasId(list, p, id)
    ensures Known(users, id)
  {
    assert HasId(users, p, id);
  }

  /** An entry whose account is not in the list. */
  lemma DrawnAdmitted(users: seq<Account>, entries: seq<Entry>, n: nat, list: seq<Account>)
    requires n < |entries| && Drawn(users, entries, n, list)
    requires forall i: nat :: i < |list| ==> !HasId(list, i, entries[n].directory)
    ensures Newcomer(users, entries, n)
    ensures Drawn(users, entries, n + 1, list + [Account(entries[n].email, "viewer", "ldap", entries[n].directory, entries[n].username, true, 0)])
  {
    WhereIds(users, entries, n, list, entries[n].directory);
    JoinedAre(users, entries, n);
    ListedMore(entries, n);
    var joined := Joined(users, entries, n);
    forall i | 0 <= i < |users| ensures Touched(users[i], entries, n + 1) == list[i] {
      assert !HasId(list, i, entries[n].directory);
    }
    forall i | 0 <= i < |joined| ensures Admitted(entries, joined[i], n + 1) == list[|users| + i] {
      assert !HasId(list, |users| + i, entries[n].directory);
    }
  }

  /** The addresses in the list are those of the catalog and of the newcomers. */
  lemma WhereEmails(users: seq<Account>, entries: seq<Entry>, n: nat, list: seq<Account>)
    requires n < |entries| && Drawn(users, entries, n, list)
    ensures (exists i: nat :: i < |list| && list[i].email == entries[n].email) <==> Owned(users, entries, n)
  {
    JoinedAre(users, entries, n);
    hide Newcomer;
    var joined, e := Joined(users, entries, n), entries[n].email;
    if i: nat :| i < |list| && list[i].email == e {
      if i < |users| {
        assert users[i].email == e;
      } else {
        assert list[|users| + (i - |users|)] == Admitted(entries, joined[i - |users|], n);
        assert joined[i - |users|] in joined;
      }
    }
    if i: nat :| i < |users| && users[i].email == e { assert list[i].email == e; }
    if j: nat :| j < n && Newcomer(users, entries, j) && entries[j].email == e {
      assert j in joined;
      var i :| 0 <= i < |joined| && joined[i] == j;
      assert list[|users| + i].email == e;
    }
  }

  ghost predicate NoClash(users: seq<Account>, entries: seq<Entry>, n: nat)
    requires n <= |entries|
  {
    forall k: nat :: k < n ==> !Clash(users, entries, k)
  }

  /** The accounts after a sync with these entries; rejected exactly if a newcomer
      brings an address that is taken. */
  method CalculatePreview(users: seq<Account>, entries: seq<Entry>)
    returns (preview: Option<seq<Account>>, added: nat, updated: nat, disabled: nat)
    requires UsersOk(users) && EntriesOk(entries)
    ensures preview.Some? <==> NoClash(users, entries, |entries|)
    ensures preview.Some? ==> Previewed(users, entries, preview.value)
    ensures preview.Some? ==> disabled == |SwitchedOff(users, entries, |users|)|
    ensures preview.Some? ==> added == |Joined(users, entries, |entries|)| && added + updated == |entries|
  {
    hide RowOk, EmailOk, Drawn, Clash, OwnersAre, Previewed;
    var list := users;
    added, updated, disabled := 0, 0, 0;
    var owners := OwnersOf(users);
    DrawnFirst(users, entries);
    OwnersAtFirst(users);
    var n := 0;
    while n < |entries|
      invariant 0 <= n <= |entries| && Drawn(users, entries, n, list) && OwnersAre(owners, list)
      invariant NoClash(users, entries, n)
      invariant added == |Joined(users, entries, n)| && added + updated == n
    {
      var entry := entries[n];
      var p := Find(list, entry.directory);
      if p == |list| {
        DrawnAdmitted(users, entries, n, list);
        OwnerIsOther(users, entries, n, list, owners);
        if entry.email in owners && owners[entry.email] != entry.directory {
          return None, added, updated, disabled;
        }
        var newcomer := Account(entry.email, "viewer", "ldap", entry.directory, entry.username, true, 0);
        OwnersMore(owners, list, newcomer);
        list := list + [newcomer];
        owners := owners[entry.email := entry.directory];
        added := added + 1;
      } else {
        DrawnEmail(users, entries, n, list, p);
        DrawnRefreshed(users, entries, n, list, p);
        OwnersSame(owners, list, p, Refreshed(list[p], entry));
        list := list[p := Refreshed(list[p], entry)];
        NoClashHere(users, entries, n);
        updated := updated + 1;
      }
      n := n + 1;
    }
    var final;
    final, disabled := Retire(list, entries);
    RetiredPreview(users, entries, list, final);
    GoneAreSwitchedOff(users, entries, list, |list|);
    preview := Some(final);
  }

  /** The active accounts whose id the directory no longer lists. */
  function SwitchedOff(users: seq<Account>, entries: seq<Entry>, n: nat): set<nat> {
    set i: nat | i < n && i < |users| && IsOff(users[i], entries)
  }

  predicate IsOff(u: Account, entries: seq<Entry>) {
    u.source == "ldap" && u.active && !Listed(entries, |entries|, u.directory)
  }

  lemma {:induction false} GoneAreSwitchedOff(users: seq<Account>, entries: seq<Entry>, list: seq<Account>, n: nat)
    requires Drawn(users, entries, |entries|, list) && n <= |list|
    ensures Gone(list, entries, n) == |SwitchedOff(users, entries, n)|
    ensures n == |list| ==> SwitchedOff(users, entries, n) == SwitchedOff(users, entries, |users|)
  {
    hide Newcomer, Listed;
    if n > 0 {
      GoneAreSwitchedOff(users, entries, list, n - 1);
      var before := SwitchedOff(users, entries, n - 1);
      if n - 1 < |users| {
        GoneIsOff(users[n - 1], entries);
        assert SwitchedOff(users, entries, n) == if IsOff(users[n - 1], entries) then before + {n - 1} else before;
      } else {
        JoinedStays(users, entries, list, n - 1);
        assert SwitchedOff(users, entries, n) == before;
      }
    }
  }

  lemma GoneIsOff(u: Account, entries: seq<Entry>)
    ensures var a := Touched(u, entries, |entries|); a.active && Retired(a, entries) != a <==> IsOff(u, entries)
  {
    hide Listed;
  }

  lemma JoinedStays(users: seq<Account>, entries: seq<Entry>, list: seq<Account>, i: nat)
    requires Drawn(users, entries, |entries|, list) && |users| <= i < |list|
    ensures Retired(list[i], entries) == list[i]
  {
    JoinedAt(users, entries, |entries|, list, i - |users|);
    assert entries[Joined(users, entries, |entries|)[i - |users|]].directory == list[i].directory;
  }

  function OwnersOf(users: seq<Account>): map<string, string> {
    if users == [] then map[]
    else
      var last := users[|users| - 1];
      OwnersOf(users[..|users| - 1])[Lower(last.email) := last.directory]
  }

  lemma {:induction false} OwnersAtFirst(users: seq<Account>)
    requires UsersOk(users)
    ensures OwnersAre(OwnersOf(users), users)
  {
    hide RowOk;
    if users != [] {
      var init, last := users[..|users| - 1], users[|users| - 1];
      assert users == init + [last];
      OwnersAtFirst(init);
      RowEmail(last);
      OwnersMore(OwnersOf(init), init, last);
    }
  }

  lemma RowEmail(a: Account)
    requires RowOk(a)
    ensures Lower(a.email) == a.email && a.email != ""
  {
    StoredEmail(a.email);
  }

  lemma OwnersMore(owners: map<string, string>, list: seq<Account>, a: Account)
    requires OwnersAre(owners, list) && forall i: nat :: i < |list| ==> list[i].email != a.email
    ensures OwnersAre(owners[a.email := a.directory], list + [a])
  {
    var more, all := owners[a.email := a.directory], list + [a];
    forall e ensures e in more <==> exists i: nat :: i < |all| && all[i].email == e {
      if e == a.email {
        assert all[|list|].email == e;
      } else if e in owners {
        var i: nat :| i < |list| && list[i].email == e;
        assert all[i].email == e;
      }
    }
  }

  lemma OwnersSame(owners: map<string, string>, list: seq<Account>, p: nat, a: Account)
    requires OwnersAre(owners, list) && p < |list| && a.email == list[p].email && a.directory == list[p].directory
    ensures OwnersAre(owners, list[p := a])
  {
    var same := list[p := a];
    assert forall i: nat :: i < |list| ==> same[i].email == list[i].email && same[i].directory == list[i].directory;
    forall e ensures e in owners <==> exists i: nat :: i < |same| && same[i].email == e {
      if e in owners {
        var i: nat :| i < |list| && list[i].email == e;
        assert same[i].email == e;
      }
    }
  }

  lemma DrawnFirst(users: seq<Account>, entries: seq<Entry>)
    ensures Drawn(users, entries, 0, users) && NoClash(users, entries, 0)
  {
  }

  /** Whoever holds the address of a newcomer is not the newcomer. */
  lemma OwnerIsOther(users: seq<Account>, entries: seq<Entry>, n: nat, list: seq<Account>, owners: map<string, string>)
    requires n < |entries| && UsersOk(users) && EntriesOk(entries) && Drawn(users, entries, n, list) && OwnersAre(owners, list)
    requires NoClash(users, entries, n) && Newcomer(users, entries, n)
    requires forall i: nat :: i < |list| ==> !HasId(list, i, entries[n].directory)
    ensures entries[n].email in owners ==> owners[entries[n].email] != entries[n].directory
    ensures entries[n].email in owners <==> Clash(users, entries, n)
    ensures entries[n].email in owners ==> !NoClash(users, entries, |entries|)
    ensures entries[n].email !in owners ==> NoClash(users, entries, n + 1)
    ensures entries[n].email !in owners ==> forall i: nat :: i < |list| ==> list[i].email != entries[n].email
  {
    hide EmailOk, Newcomer, Owned, Drawn;
    WhereEmails(users, entries, n, list);
    assert EntryOk(entries[n]);
    forall i: nat | i < |list| ensures list[i].directory != entries[n].directory {
      assert !HasId(list, i, entries[n].directory);
      DrawnSource(users, entries, n, list, i);
    }
  }

  lemma DrawnSource(users: seq<Account>, entries: seq<Entry>, n: nat, list: seq<Account>, i: nat)
    requires n <= |entries| && UsersOk(users) && Drawn(users, entries, n, list) && i < |list|
    ensures list[i].source == "ldap" || (list[i].source == "local" && list[i].directory == "")
  {
    hide EmailOk, Newcomer, RoleOk;
    if i < |users| {
      TouchedKeeps(users[i], entries, n);
      assert RowOk(users[i]);
    } else {
      JoinedAt(users, entries, n, list, i - |users|);
    }
  }

  lemma DrawnEmail(users: seq<Account>, entries: seq<Entry>, n: nat, list: seq<Account>, p: nat)
    requires n <= |entries| && UsersOk(users) && EntriesOk(entries) && Drawn(users, entries, n, list) && p < |list|
    ensures list[p].email != ""
  {
    hide EmailOk, RowOk, Newcomer;
    if p < |users| {
      TouchedKeeps(users[p], entries, n);
      RowEmail(users[p]);
    } else {
      JoinedAt(users, entries, n, list, p - |users|);
      assert EntryOk(entries[Joined(users, entries, n)[p - |users|]]);
      StoredEmail(list[p].email);
      NoEmptyEmail();
    }
  }

  lemma NoEmptyEmail()
    ensures !EmailOk("")
  {
  }

  lemma NoClashHere(users: seq<Account>, entries: seq<Entry>, n: nat)
    requires n < |entries| && NoClash(users, entries, n) && !Newcomer(users, entries, n)
    ensures NoClash(users, entries, n + 1)
  {
    hide Newcomer;
  }

  method Retire(list: seq<Account>, entries: seq<Entry>) returns (final: seq<Account>, disabled: nat)
    ensures |final| == |list| && forall i :: 0 <= i < |list| ==> final[i] == Retired(list[i], entries)
    ensures disabled == Gone(list, entries, |list|)
  {
    final, disabled := list, 0;
    var seen := set k | 0 <= k < |entries| :: entries[k].directory;
    var i := 0;
    while i < |list|
      invariant 0 <= i <= |list| == |final|
      invariant forall k :: 0 <= k < |list| ==> final[k] == if k < i then Retired(list[k], entries) else list[k]
      invariant disabled == Gone(list, entries, i)
    {
      if final[i].source == "ldap" && final[i].directory !in seen && final[i].active {
        final := final[i := final[i].(active := false)];
        disabled := disabled + 1;
      }
      i := i + 1;
    }
  }

  lemma RetiredPreview(users: seq<Account>, entries: seq<Entry>, list: seq<Account>, final: seq<Account>)
    requires Drawn(users, entries, |entries|, list)
    requires |final| == |list| && forall i :: 0 <= i < |list| ==> final[i] == Retired(list[i], entries)
    ensures Previewed(users, entries, final)
  {
    hide Newcomer;
    var joined := Joined(users, entries, |entries|);
    forall i | 0 <= i < |joined| ensures joined[i] < |entries| && final[|users| + i] == Admitted(entries, joined[i], |entries|) {
      assert entries[joined[i]].directory == list[|users| + i].directory;
    }
  }

  // ---------------------------------------------------------------- applying a preview

  /** The list shows every row once. */
  ghost predicate Lists(users: seq<Account>, rows: Rows) {
    && EmailsApart(users)
    && (forall i :: 0 <= i < |users| ==> users[i].email in rows && rows[users[i].email] == users[i])
    && forall e :: e in rows ==> exists i :: 0 <= i < |users| && users[i].email == e
  }

  /** The stored form of an account in a preview. */
  function Tidy(a: Account): Account {
    a.(username := Trim(a.username), revision := if a.revision < 1 then 1 else a.revision)
  }

  function TidyAll(preview: seq<Account>): (r: seq<Account>)
    ensures |r| == |preview| && forall i :: 0 <= i < |r| ==> r[i] == Tidy(preview[i])
  {
    seq(|preview|, i requires 0 <= i < |preview| => Tidy(preview[i]))
  }

  /** What previews consist of. */
  ghost predicate PreviewRow(a: Account) {
    && EmailOk(a.email) && RoleOk(a.role)
    && (if a.source == "ldap" then a.directory != "" && Trim(a.directory) == a.directory else RowOk(a))
  }

  lemma TidyIsNormal(a: Account, first: bool)
    requires PreviewRow(a)
    ensures Normal(a, first) == Some(Tidy(a))
  {
    StoredEmail(a.email);
    RoleIsPlain(a.role, first);
    SourceIsPlain(a.source);
    hide EmailOk, RoleOk, RoleOf, SourceOf;
    if a.source == "ldap" { TrimTwice(a.username); }
  }

  ghost predicate PreviewRows(preview: seq<Account>) {
    forall i :: 0 <= i < |preview| ==> PreviewRow(preview[i])
  }

  lemma TidyAreNormals(preview: seq<Account>)
    requires PreviewRows(preview)
    ensures AllNormal(preview) && Normals(preview) == TidyAll(preview)
  {
    hide PreviewRow, Normal, Tidy;
    forall i | 0 <= i < |preview| ensures Normal(preview[i], i == 0) == Some(Tidy(preview[i])) { TidyIsNormal(preview[i], i == 0); }
  }

  /** Against the rows a preview was calculated from: no foreign ids, and only
      compatible accounts. */
  ghost predicate Fits(rows: Rows, a: Account) {
    Compatible(rows, a) && !InUse(rows, a.directory, a.email)
  }

  lemma PreviewedRow(rows: Rows, users: seq<Account>, entries: seq<Entry>, preview: seq<Account>, i: nat)
    requires RowsOk(rows) && UsersOk(users) && Lists(users, rows) && EntriesOk(entries) && NoClash(users, entries, |entries|)
    requires Previewed(users, entries, preview) && i < |preview|
    ensures PreviewRow(preview[i]) && Fits(rows, Tidy(preview[i]))
  {
    hide EmailOk, RoleOk, Newcomer, Clash;
    if i < |users| {
      OldRow(rows, users[i], entries);
    } else {
      PreviewedNew(users, entries, preview, i);
      NewRow(rows, users, entries, Joined(users, entries, |entries|)[i - |users|]);
    }
  }

  lemma PreviewedNew(users: seq<Account>, entries: seq<Entry>, preview: seq<Account>, i: nat)
    requires Previewed(users, entries, preview) && |users| <= i < |preview|
    ensures var k := Joined(users, entries, |entries|)[i - |users|];
      k < |entries| && Newcomer(users, entries, k) && preview[i] == Admitted(entries, k, |entries|)
  {
    JoinedAre(users, entries, |entries|);
    assert Joined(users, entries, |entries|)[i - |users|] in Joined(users, entries, |entries|);
    assert preview[|users| + (i - |users|)] == preview[i];
  }

  lemma OldRow(rows: Rows, u: Account, entries: seq<Entry>)
    requires RowsOk(rows) && RowOk(u) && u.email in rows && rows[u.email] == u
    ensures var a := Retired(Touched(u, entries, |entries|), entries); PreviewRow(a) && Fits(rows, Tidy(a)) && a.email == u.email && a.directory == u.directory
  {
    hide EmailOk, RoleOk, Listed, LastName;
    assert Trim("") == "";
    if u.source == "local" { assert Tidy(u) == u; }
  }

  lemma NewRow(rows: Rows, users: seq<Account>, entries: seq<Entry>, k: nat)
    requires RowsOk(rows) && UsersOk(users) && Lists(users, rows) && EntriesOk(entries) && NoClash(users, entries, |entries|)
    requires k < |entries| && Newcomer(users, entries, k)
    ensures var a := Admitted(entries, k, |entries|); PreviewRow(a) && Fits(rows, Tidy(a))
  {
    hide EmailOk, Listed, LastName;
    assert EntryOk(entries[k]) && !Clash(users, entries, k);
    var entry := entries[k];
    assert entry.email !in rows;
    forall e | e in rows ensures rows[e].directory != entry.directory {
      var i :| 0 <= i < |users| && users[i].email == e;
      assert RowOk(users[i]) && !HasId(users, i, entry.directory);
    }
  }

  lemma PreviewApart(users: seq<Account>, entries: seq<Entry>, preview: seq<Account>)
    requires UsersOk(users) && EntriesOk(entries) && NoClash(users, entries, |entries|) && Previewed(users, entries, preview)
    ensures EmailsApart(preview) && DirectoriesApart(preview)
  {
    hide EmailOk, RowOk, Newcomer, Clash;
    forall i, j | 0 <= i < j < |preview| ensures preview[i].email != preview[j].email && (preview[i].directory != "" ==> preview[i].directory != preview[j].directory) {
      if j < |users| {
        TouchedKeeps(users[i], entries, |entries|);
        TouchedKeeps(users[j], entries, |entries|);
      } else if i < |users| {
        TouchedKeeps(users[i], entries, |entries|);
        PreviewedNew(users, entries, preview, j);
        NewApartFromOld(users, entries, Joined(users, entries, |entries|)[j - |users|], i);
      } else {
        PreviewedNew(users, entries, preview, i);
        PreviewedNew(users, entries, preview, j);
        JoinedAre(users, entries, |entries|);
        NewApart(users, entries, Joined(users, entries, |entries|)[i - |users|], Joined(users, entries, |entries|)[j - |users|]);
      }
    }
  }

  lemma NewApartFromOld(users: seq<Account>, entries: seq<Entry>, k: nat, i: nat)
    requires UsersOk(users) && EntriesOk(entries) && NoClash(users, entries, |entries|) && k < |entries| && Newcomer(users, entries, k) && i < |users|
    ensures users[i].email != entries[k].email && (users[i].directory != "" ==> users[i].directory != entries[k].directory)
  {
    hide EmailOk, RoleOk;
    assert !Clash(users, entries, k) && RowOk(users[i]) && EntryOk(entries[k]);
    assert !HasId(users, i, entries[k].directory);
  }

  lemma NewApart(users: seq<Account>, entries: seq<Entry>, j: nat, k: nat)
    requires NoClash(users, entries, |entries|) && j < k < |entries| && Newcomer(users, entries, j) && Newcomer(users, entries, k)
    ensures entries[j].email != entries[k].email && entries[j].directory != entries[k].directory
  {
    assert !Clash(users, entries, k);
  }

  /** A preview is applied to the catalog it was calculated from, unless nobody
      privileged would be left. */
  lemma PreviewIsApplicable(rows: Rows, users: seq<Account>, entries: seq<Entry>, preview: seq<Account>)
    requires RowsOk(rows) && UsersOk(users) && Lists(users, rows) && EntriesOk(entries)
    requires NoClash(users, entries, |entries|) && Previewed(users, entries, preview)
    ensures Applicable(rows, preview) <==> SomePrivileged(preview)
  {
    hide EmailOk, RowOk, PreviewRow, Fits, Tidy, NoClash, Normals, RowsOk, UsersOk, Storable, ByEmail, Lists, Previewed;
    forall i: nat | i < |preview| ensures PreviewRow(preview[i]) && Fits(rows, Tidy(preview[i])) {
      PreviewedRow(rows, users, entries, preview, i);
    }
    assert PreviewRows(preview);
    TidyAreNormals(preview);
    PreviewApart(users, entries, preview);
    TidyKeeps(preview);
    if SomePrivileged(preview) {
      var next := ByEmail(Normals(preview));
      ByEmailKeeps(Normals(preview));
      ByEmailAscends(Normals(preview));
      AcceptedFacts(preview, next);
      assert forall a :: a in next ==> Fits(rows, a);
      FittingGetsThrough(rows, next);
      PreviewCovers(rows, users, entries, preview, next);
    }
  }

  lemma TidyKeeps(preview: seq<Account>)
    requires EmailsApart(preview) && DirectoriesApart(preview)
    ensures EmailsApart(TidyAll(preview)) && DirectoriesApart(TidyAll(preview))
    ensures SomePrivileged(TidyAll(preview)) <==> SomePrivileged(preview)
  {
    var tidy := TidyAll(preview);
    forall i | 0 <= i < |preview| ensures Privileged(tidy[i]) <==> Privileged(preview[i]) { assert tidy[i] == Tidy(preview[i]); }
    PrivilegedAt(preview);
    PrivilegedAt(tidy);
  }

  lemma PrivilegedAt(users: seq<Account>)
    ensures SomePrivileged(users) <==> exists i :: 0 <= i < |users| && Privileged(users[i])
  {
    if SomePrivileged(users) {
      var a :| a in users && Privileged(a);
      var i :| 0 <= i < |users| && users[i] == a;
    }
  }

  lemma FittingGetsThrough(rows: Rows, next: seq<Account>)
    requires RowsOk(rows) && EmailsApart(next) && DirectoriesApart(next)
    requires forall i :: 0 <= i < |next| ==> RowOk(next[i])
    requires forall a :: a in next ==> Fits(rows, a)
    ensures forall i :: 0 <= i < |next| ==> Storable(rows, next, i)
  {
    hide RowOk, RowsOk, Compatible, InUse, SyncAll, Storable;
    forall i | 0 <= i < |next| ensures Compatible(rows, next[i]) && !InUse(rows, next[i].directory, next[i].email) { assert next[i] in next; }
    HarmlessGetsThrough(rows, next, |next|);
    SyncGetsThrough(rows, next, |next|);
  }

  lemma PreviewCovers(rows: Rows, users: seq<Account>, entries: seq<Entry>, preview: seq<Account>, next: seq<Account>)
    requires Lists(users, rows) && Previewed(users, entries, preview) && forall a :: a in next <==> a in TidyAll(preview)
    ensures Covers(next, rows)
  {
    hide Newcomer;
    forall e | e in rows ensures e in Emails(next) {
      var i :| 0 <= i < |users| && users[i].email == e;
      TouchedKeeps(users[i], entries, |entries|);
      assert TidyAll(preview)[i].email == e && TidyAll(preview)[i] in next;
      var k :| 0 <= k < |next| && next[k] == TidyAll(preview)[i];
    }
  }

  lemma ListedUsersOk(users: seq<Account>, rows: Rows)
    requires RowsOk(rows) && Lists(users, rows)
    ensures UsersOk(users)
  {
    hide RowOk;
  }

  /** Preview and application with nothing in between. */
  method Sync(catalog: Catalog, actor: string, users: seq<Account>, entries: seq<Entry>) returns (outcome: Option<Outcome>, preview: seq<Account>)
    requires catalog.Valid() && Lists(users, catalog.rows) && EntriesOk(entries)
    modifies catalog
    ensures catalog.Valid()
    ensures outcome.Some? <==> NoClash(users, entries, |entries|)
    ensures outcome.Some? ==> Previewed(users, entries, preview)
    ensures outcome.Some? && Authorized(old(catalog.rows), actor) ==> (outcome.value == Done <==> SomePrivileged(preview))
    ensures outcome == Some(Done) ==> catalog.version == old(catalog.version) + 1 && HasPrivileged(catalog.rows)
    ensures outcome == Some(Done) ==> Applicable(old(catalog.rows), preview) && catalog.rows == Synced(old(catalog.rows), preview)
    ensures outcome != Some(Done) ==> catalog.rows == old(catalog.rows) && catalog.version == old(catalog.version)
  {
    hide RowsOk, Lists, EntriesOk, UsersOk, Previewed, NoClash, Authorized, Acceptable, SomePrivileged, HasPrivileged, Normals, ByEmail, Storable, Covers;
    ListedUsersOk(users, catalog.rows);
    var calculated, added, updated, disabled := CalculatePreview(users, entries);
    outcome, preview := None, [];
    if calculated.Some? {
      preview := calculated.value;
      PreviewIsApplicable(catalog.rows, users, entries, preview);
      var applied := catalog.ApplyPreview(actor, catalog.version, preview);
      outcome := Some(applied);
    }
  }
}
