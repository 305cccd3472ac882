/** Account rows, and how a list of accounts is brought into its stored form. */
module Accounts {
  import opened Options
  import opened Texts

  datatype Account = Account(email: string, role: string, source: string, directory: string, username: string, active: bool, revision: int)

  const Roles: set<string> := {"developer", "admin", "editor", "reviewer", "deployer", "viewer"}

  // ---------------------------------------------------------------- email addresses

  function IndexOf(s: string, c: char): (i: nat)
    ensures i <= |s| && (i < |s| ==> s[i] == c)
  {
    if s == [] || s[0] == c then 0 else 1 + IndexOf(s[1..], c)
  }

  predicate Alphanumeric(c: char) {
    'a' <= c <= 'z' || '0' <= c <= '9'
  }

  predicate LocalChar(c: char) {
    Alphanumeric(c) || c in "!#$%&'*+=?^_`{|}~.-"
  }

  predicate LocalPartOk(s: string) {
    && 0 < |s| <= 64
    && (forall c :: c in s ==> LocalChar(c))
    && s[0] != '.' && s[|s| - 1] != '.'
    && forall i :: 0 < i < |s| ==> s[i - 1] != '.' || s[i] != '.'
  }

  predicate LabelOk(s: string) {
    0 < |s| <= 63 && s[0] != '-' && s[|s| - 1] != '-' && forall c :: c in s ==> Alphanumeric(c) || c == '-'
  }

  predicate DomainOk(s: string) {
    var dot := IndexOf(s, '.');
    dot < |s| && LabelOk(s[..dot]) && (LabelOk(s[dot + 1..]) || DomainOk(s[dot + 1..]))
  }

  predicate EmailOk(e: string) {
    var at := IndexOf(e, '@');
    at < |e| <= 254 && LocalPartOk(e[..at]) && DomainOk(e[at + 1..])
  }

  function CanonicalEmail(value: string): Option<string> {
    var e := Lower(Trim(value));
    if EmailOk(e) then Some(e) else None
  }

  predicate Plain(c: char) {
    !IsSpace(c) && !('A' <= c <= 'Z')
  }

  lemma {:induction false} DomainIsPlain(s: string)
    requires DomainOk(s)
    ensures forall c :: c in s ==> Plain(c)
  {
    var dot := IndexOf(s, '.');
    assert s == s[..dot] + ['.'] + s[dot + 1..];
    if !LabelOk(s[dot + 1..]) { DomainIsPlain(s[dot + 1..]); }
  }

  lemma EmailIsPlain(e: string)
    requires EmailOk(e)
    ensures forall c :: c in e ==> Plain(c)
  {
    var at := IndexOf(e, '@');
    assert e == e[..at] + ['@'] + e[at + 1..];
    DomainIsPlain(e[at + 1..]);
  }

  predicate AllPlain(s: string) {
    forall i :: 0 <= i < |s| ==> Plain(s[i])
  }

  lemma PlainText(s: string)
    requires AllPlain(s)
    ensures Lower(s) == s && Trim(s) == s
  {
    if s != "" { assert Plain(s[0]) && Plain(s[|s| - 1]); }
    hide IsSpace;
    assert TrimLeft(s) == s && TrimRight(s) == s;
    forall i: nat | i < |s| ensures Lower(s)[i] == s[i] { assert Plain(s[i]); }
    assert Lower(s) == s;
  }

  /** A stored address is its own canonical form. */
  lemma StoredEmail(e: string)
    requires EmailOk(e)
    ensures CanonicalEmail(e) == Some(e) && Lower(e) == e && Trim(e) == e && e != ""
  {
    EmailIsPlain(e);
    hide Plain;
    assert AllPlain(e);
    PlainText(e);
  }

  // ---------------------------------------------------------------- the stored form

  function RoleOf(role: string, first: bool): string {
    var r := Lower(Trim(role));
    if r == "" then (if first then "admin" else "viewer") else r
  }

  function SourceOf(source: string): string {
    var s := Lower(Trim(source));
    if s == "" then "local" else s
  }

  /** One account in its stored form, if it has one. */
  function Normal(input: Account, first: bool): Option<Account> {
    var email := CanonicalEmail(input.email);
    var role, source := RoleOf(input.role, first), SourceOf(input.source);
    var revision := if input.revision < 1 then 1 else input.revision;
    var directory := Trim(input.directory);
    if email.None? || role !in Roles then None
    else if source == "local" then
      if directory != "" then None else Some(Account(email.value, role, source, "", "", true, revision))
    else if source == "ldap" then
      if directory == "" then None else Some(Account(email.value, role, source, directory, Trim(input.username), input.active, revision))
    else None
  }

  predicate Privileged(a: Account) {
    a.active && (a.role == "admin" || a.role == "developer")
  }

  /** The roles there are. */
  ghost predicate RoleOk(role: string) {
    role == "developer" || role == "admin" || role == "editor" || role == "reviewer" || role == "deployer" || role == "viewer"
  }

  /** What every stored row looks like. */
  ghost predicate RowOk(a: Account) {
    && EmailOk(a.email) && RoleOk(a.role) && a.revision >= 1
    && (if a.source == "local" then a.directory == "" && a.username == "" && a.active
       else a.source == "ldap" && a.directory != "" && Trim(a.directory) == a.directory && Trim(a.username) == a.username)
  }

  lemma NormalIsStored(input: Account, first: bool)
    requires Normal(input, first).Some?
    ensures RowOk(Normal(input, first).value)
  {
    hide EmailOk, Trim, Lower, RoleOf;
    TrimTwice(input.directory);
    TrimTwice(input.username);
  }

  /** The stored row that an input asks for: texts without surrounding space, addresses
      in lower case, and defaults for what is left blank. Local accounts are active and
      have no place in the directory. */
  ghost predicate Shows(input: Account, first: bool, a: Account) {
    var role, source := Lower(Trim(input.role)), Lower(Trim(input.source));
    && a.email == Lower(Trim(input.email))
    && a.role == (if role != "" then role else if first then "admin" else "viewer")
    && a.source == (if source != "" then source else "local")
    && a.directory == Trim(input.directory)
    && (a.source == "ldap" ==> a.username == Trim(input.username) && a.active == input.active)
    && (a.revision == input.revision || (input.revision < 1 && a.revision == 1))
  }

  /** Normalizing yields the stored row that shows the input, if there is one. */
  lemma NormalIs(input: Account, first: bool, a: Account)
    ensures Normal(input, first) == Some(a) <==> RowOk(a) && Shows(input, first, a)
  {
    hide EmailOk, Trim, Lower;
    TrimTwice(input.directory);
    TrimTwice(input.username);
  }

  lemma RoleIsPlain(role: string, first: bool)
    requires RoleOk(role)
    ensures RoleOf(role, first) == role && role in Roles
  {
    assert AllPlain(role);
    hide Plain;
    PlainText(role);
  }

  lemma SourceIsPlain(source: string)
    requires source == "local" || source == "ldap"
    ensures SourceOf(source) == source
  {
    assert Lower("local") == "local" && Lower("ldap") == "ldap";
    assert TrimLeft(source) == source && TrimRight(source) == source;
  }

  /** A stored row is in stored form. */
  lemma StoredIsNormal(a: Account, first: bool)
    requires RowOk(a)
    ensures Normal(a, first) == Some(a)
  {
    StoredEmail(a.email);
    RoleIsPlain(a.role, first);
    SourceIsPlain(a.source);
    hide EmailOk, RoleOk, RoleOf, SourceOf;
  }

  // ---------------------------------------------------------------- a list of accounts

  ghost predicate AllNormal(users: seq<Account>) {
    forall i :: 0 <= i < |users| ==> Normal(users[i], i == 0).Some?
  }

  function Normals(users: seq<Account>): (r: seq<Account>)
    requires AllNormal(users)
    ensures |r| == |users| && forall i :: 0 <= i < |r| ==> r[i] == Normal(users[i], i == 0).value
  {
    seq(|users|, i requires 0 <= i < |users| => Normal(users[i], i == 0).value)
  }

  ghost predicate EmailsApart(users: seq<Account>) {
    forall i, j :: 0 <= i < j < |users| ==> users[i].email != users[j].email
  }

  ghost predicate DirectoriesApart(users: seq<Account>) {
    forall i, j :: 0 <= i < j < |users| && users[i].directory != "" ==> users[i].directory != users[j].directory
  }

  ghost predicate SomePrivileged(users: seq<Account>) {
    exists a :: a in users && a.active && (a.role == "admin" || a.role == "developer")
  }

  ghost predicate Acceptable(users: seq<Account>, requirePrivileged: bool) {
    && AllNormal(users) && EmailsApart(Normals(users)) && DirectoriesApart(Normals(users))
    && (requirePrivileged ==> SomePrivileged(Normals(users)))
  }

  function InOrder(users: seq<Account>, a: Account): seq<Account> {
    if users == [] then [a]
    else if TextLess(a.email, users[0].email) then [a] + users
    else [users[0]] + InOrder(users[1..], a)
  }

  function ByEmail(users: seq<Account>): seq<Account> {
    if users == [] then [] else InOrder(ByEmail(users[..|users| - 1]), users[|users| - 1])
  }

  lemma {:induction false} InOrderKeeps(users: seq<Account>, a: Account)
    ensures multiset(InOrder(users, a)) == multiset(users) + multiset{a}
  {
    if users != [] {
      assert users == [users[0]] + users[1..];
      InOrderKeeps(users[1..], a);
    }
  }

  lemma {:induction false} ByEmailKeeps(users: seq<Account>)
    ensures multiset(ByEmail(users)) == multiset(users)
  {
    if users != [] {
      var init, last := users[..|users| - 1], users[|users| - 1];
      assert users == init + [last];
      ByEmailKeeps(init);
      InOrderKeeps(ByEmail(init), last);
    }
  }

  ghost predicate Ascending(users: seq<Account>) {
    forall i, j :: 0 <= i < j < |users| ==> TextLess(users[i].email, users[j].email)
  }

  lemma {:induction false} InOrderAscends(users: seq<Account>, a: Account)
    requires Ascending(users) && forall u :: u in users ==> u.email != a.email
    ensures Ascending(InOrder(users, a))
  {
    if users != [] {
      TextOrder(a.email, users[0].email);
      if TextLess(a.email, users[0].email) {
        forall j | 0 <= j < |users| ensures TextLess(a.email, users[j].email) {
          if j > 0 { TextTrans(a.email, users[0].email, users[j].email); }
        }
      } else {
        InOrderAscends(users[1..], a);
        InOrderKeeps(users[1..], a);
        var rest := InOrder(users[1..], a);
        forall u | u in rest ensures TextLess(users[0].email, u.email) {
          assert u in multiset(rest);
          assert u == a || u in users[1..];
          if u != a { InTail(users, u); }
        }
      }
    }
  }

  lemma InTail(users: seq<Account>, u: Account)
    requires users != [] && Ascending(users) && u in users[1..]
    ensures TextLess(users[0].email, u.email)
  {
    var i :| 0 <= i < |users[1..]| && users[1..][i] == u;
    assert users[i + 1] == u;
  }

  /** The list in the order of its addresses. */
  lemma {:induction false} ByEmailAscends(users: seq<Account>)
    requires EmailsApart(users)
    ensures Ascending(ByEmail(users))
  {
    if users != [] {
      var init, last := users[..|users| - 1], users[|users| - 1];
      ByEmailAscends(init);
      ByEmailKeeps(init);
      forall u | u in ByEmail(init) ensures u.email != last.email {
        assert u in multiset(init);
        var i :| 0 <= i < |init| && init[i] == u;
        assert users[i] == u;
      }
      InOrderAscends(ByEmail(init), last);
    }
  }

  /** Brings a list of accounts into stored form, or rejects it. */
  method NormalizeCatalog(users: seq<Account>, requirePrivileged: bool) returns (result: Option<seq<Account>>)
    ensures result.Some? <==> Acceptable(users, requirePrivileged)
    ensures result.Some? ==> result.value == ByEmail(Normals(users))
    ensures result.Some? ==> Ascending(result.value) && multiset(result.value) == multiset(Normals(users))
  {
    hide Normal, ByEmail;
    var list: seq<Account> := [];
    var emails: set<string>, directories: set<string> := {}, {};
    var privileged := false;
    var i := 0;
    while i < |users|
      invariant 0 <= i <= |users| && |list| == i
      invariant forall k :: 0 <= k < i ==> Normal(users[k], k == 0) == Some(list[k])
      invariant forall e :: e in emails <==> exists k :: 0 <= k < i && list[k].email == e
      invariant forall d :: d in directories <==> d != "" && exists k :: 0 <= k < i && list[k].directory == d
      invariant EmailsApart(list) && DirectoriesApart(list)
      invariant privileged <==> SomePrivileged(list)
    {
      var normal := Normal(users[i], i == 0);
      if normal.None? {
        return None;
      }
      var user := normal.value;
      if user.email in emails || user.directory in directories {
        Repeated(users, list, i, user);
        return None;
      }
      emails := emails + {user.email};
      if user.directory != "" { directories := directories + {user.directory}; }
      if Privileged(user) { privileged := true; }
      PrivilegedMore(list, user);
      list := list + [user];
      i := i + 1;
    }
    assert list == Normals(users);
    if requirePrivileged && !privileged {
      return None;
    }
    ByEmailAscends(list);
    ByEmailKeeps(list);
    return Some(ByEmail(list));
  }

  lemma PrivilegedMore(list: seq<Account>, user: Account)
    ensures SomePrivileged(list + [user]) <==> SomePrivileged(list) || Privileged(user)
  {
    if SomePrivileged(list) {
      var a :| a in list && a.active && (a.role == "admin" || a.role == "developer");
      assert a in list + [user];
    }
    if Privileged(user) { assert user in list + [user]; }
  }

  lemma Repeated(users: seq<Account>, list: seq<Account>, i: nat, user: Account)
    requires i < |users| && |list| == i && Normal(users[i], i == 0) == Some(user)
    requires forall k :: 0 <= k < i ==> Normal(users[k], k == 0) == Some(list[k])
    requires exists k :: 0 <= k < i && (list[k].email == user.email || (user.directory != "" && list[k].directory == user.directory))
    ensures forall require: bool :: !Acceptable(users, require)
  {
    hide Normal;
    if AllNormal(users) {
      var k :| 0 <= k < i && (list[k].email == user.email || (user.directory != "" && list[k].directory == user.directory));
      var normals := Normals(users);
      assert normals[k] == list[k] && normals[i] == user;
    }
  }
}
