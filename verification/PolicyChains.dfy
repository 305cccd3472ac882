/** The insertion chain of a reviewed plan: what the validator accepts. */
module PolicyChains {
  import opened Texts
  import opened FiniteSets

  datatype ChainCommand = ChainCommand(name: string, insertBefore: string, sequence: int)

  // ---------------------------------------------------------------- chains

  predicate AnchorOk(anchor: string) {
    Trim(anchor) == anchor && anchor != [] && forall i :: 0 <= i < |anchor| ==> !IsControl(anchor[i])
  }

  predicate Different(w: seq<string>, i: nat, j: nat) {
    i < j < |w| ==> w[i] != w[j]
  }

  /** Position `i` of a chain: its successor is the next name, or the anchor. */
  predicate LinkedTo(policies: map<string, ChainCommand>, anchor: string, w: seq<string>, i: nat) {
    i < |w| ==>
      && w[i] in policies
      && (if i + 1 < |w| then
            && policies[w[i]].insertBefore == w[i + 1] == Trim(w[i + 1])
            && w[i + 1] in policies && policies[w[i + 1]].sequence < policies[w[i]].sequence
          else policies[w[i]].insertBefore == anchor)
  }

  /** One total order of all policies that ends at the anchor, along which the
      sequence numbers fall. */
  ghost predicate IsChain(policies: map<string, ChainCommand>, anchor: string, w: seq<string>) {
    && |w| == |policies| && w != []
    && (forall i: nat, j: nat :: Different(w, i, j))
    && forall i: nat :: LinkedTo(policies, anchor, w, i)
  }

  function Successor(policies: map<string, ChainCommand>, name: string): string
    requires name in policies
  {
    Trim(policies[name].insertBefore)
  }

  function Names(w: seq<string>): set<string> {
    set n | n in w
  }

  lemma {:induction false} NamesCount(w: seq<string>)
    requires forall i: nat, j: nat :: Different(w, i, j)
    ensures |Names(w)| == |w|
  {
    if w == [] {
      assert Names(w) == {};
    } else {
      var init, last := w[..|w| - 1], w[|w| - 1];
      forall i: nat, j: nat ensures Different(init, i, j) { assert Different(w, i, j); }
      NamesCount(init);
      forall i | 0 <= i < |init| ensures init[i] != last { assert Different(w, i, |w| - 1); }
      assert w == init + [last];
      assert Names(w) == Names(init) + {last} && last !in Names(init);
    }
  }

  /** Every policy has its place in the chain. */
  lemma PlaceOf(policies: map<string, ChainCommand>, anchor: string, w: seq<string>, name: string) returns (i: nat)
    requires IsChain(policies, anchor, w) && name in policies
    ensures i < |w| && w[i] == name
  {
    var names := Names(w);
    NamesCount(w);
    forall n | n in names ensures n in policies.Keys {
      var j: nat :| j < |w| && w[j] == n;
      assert LinkedTo(policies, anchor, w, j);
    }
    SubsetOfSameSize(names, policies.Keys);
    assert name in names;
    i :| 0 <= i < |w| && w[i] == name;
  }

  // ---------------------------------------------------------------- the edges

  /** Every policy in `done` has a known successor of a lower sequence number, and
      no two of them share one. */
  ghost predicate EdgesOk(policies: map<string, ChainCommand>, anchor: string, done: set<string>) {
    && done <= policies.Keys
    && (forall n :: n in done ==> EdgeOk(policies, anchor, n))
    && (forall n, m :: n in done && m in done && n != m && Successor(policies, n) == Successor(policies, m) ==> Successor(policies, n) == anchor)
  }

  predicate EdgeOk(policies: map<string, ChainCommand>, anchor: string, n: string) {
    n in policies && (Successor(policies, n) == anchor ||
      (Successor(policies, n) in policies && policies[Successor(policies, n)].sequence < policies[n].sequence))
  }

  lemma ChainEdge(policies: map<string, ChainCommand>, anchor: string, w: seq<string>, i: nat)
    requires IsChain(policies, anchor, w) && AnchorOk(anchor) && anchor !in policies && i < |w|
    ensures w[i] in policies && EdgeOk(policies, anchor, w[i])
    ensures Successor(policies, w[i]) == if i + 1 < |w| then w[i + 1] else anchor
    ensures i + 1 < |w| ==> w[i + 1] != anchor
  {
    assert LinkedTo(policies, anchor, w, i) && LinkedTo(policies, anchor, w, i + 1);
  }

  lemma ChainSharesNothing(policies: map<string, ChainCommand>, anchor: string, w: seq<string>, n: string, m: string)
    requires IsChain(policies, anchor, w) && AnchorOk(anchor) && anchor !in policies && n in policies && m in policies && n != m
    ensures Successor(policies, n) != Successor(policies, m)
  {
    var i := PlaceOf(policies, anchor, w, n);
    var j := PlaceOf(policies, anchor, w, m);
    ChainEdge(policies, anchor, w, i);
    ChainEdge(policies, anchor, w, j);
    assert Different(w, i + 1, j + 1) && Different(w, j + 1, i + 1);
  }

  function Terminal(policies: map<string, ChainCommand>, anchor: string, done: set<string>): set<string>
    requires done <= policies.Keys
  {
    set n | n in done && Successor(policies, n) == anchor
  }

  function Referenced(policies: map<string, ChainCommand>, anchor: string, done: set<string>): set<string>
    requires done <= policies.Keys
  {
    set n | n in done && Successor(policies, n) != anchor :: Successor(policies, n)
  }

  /** Looks at every successor; the order does not matter. */
  method CheckEdges(policies: map<string, ChainCommand>, anchor: string) returns (ok: bool, referenced: set<string>)
    requires AnchorOk(anchor) && anchor !in policies
    ensures ok ==> EdgesOk(policies, anchor, policies.Keys) && |Terminal(policies, anchor, policies.Keys)| == 1
    ensures ok ==> referenced == Referenced(policies, anchor, policies.Keys)
    ensures !ok ==> forall w :: !IsChain(policies, anchor, w)
  {
    hide Successor, IsChain, AnchorOk, EdgesOk, Terminal, Referenced;
    ok, referenced := true, {};
    var terminalEdges, todo := 0, policies.Keys;
    ghost var done: set<string> := {};
    NoEdges(policies, anchor);
    while todo != {} && ok
      invariant done !! todo && done + todo == policies.Keys
      invariant ok ==> EdgesOk(policies, anchor, done) && terminalEdges == |Terminal(policies, anchor, done)|
      invariant ok ==> referenced == Referenced(policies, anchor, done)
      invariant !ok ==> forall w :: !IsChain(policies, anchor, w)
      decreases |todo|
    {
      var name :| name in todo;
      var successor := Successor(policies, name);
      if successor == anchor {
        terminalEdges := terminalEdges + 1;
        OneMoreEdge(policies, anchor, done, name);
      } else {
        ok := successor in policies && successor !in referenced && policies[successor].sequence < policies[name].sequence;
        if ok {
          OneMoreEdge(policies, anchor, done, name);
          referenced := referenced + {successor};
        } else {
          BadEdge(policies, anchor, done, name);
        }
      }
      todo := todo - {name};
      done := done + {name};
    }
    if ok {
      assert done == policies.Keys;
      ok := terminalEdges == 1;
      if !ok { OneTerminal(policies, anchor); }
    }
  }

  lemma NoEdges(policies: map<string, ChainCommand>, anchor: string)
    ensures EdgesOk(policies, anchor, {}) && Terminal(policies, anchor, {}) == {} == Referenced(policies, anchor, {})
  {
  }

  lemma OneMoreEdge(policies: map<string, ChainCommand>, anchor: string, done: set<string>, name: string)
    requires EdgesOk(policies, anchor, done) && name in policies && name !in done
    requires var s := Successor(policies, name);
      s == anchor || (s in policies && s !in Referenced(policies, anchor, done) && policies[s].sequence < policies[name].sequence)
    ensures EdgesOk(policies, anchor, done + {name})
    ensures var s := Successor(policies, name);
      && Referenced(policies, anchor, done + {name}) == Referenced(policies, anchor, done) + (if s == anchor then {} else {s})
      && |Terminal(policies, anchor, done + {name})| == |Terminal(policies, anchor, done)| + if s == anchor then 1 else 0
  {
    hide Successor;
    var s := Successor(policies, name);
    if s == anchor {
      assert Terminal(policies, anchor, done + {name}) == Terminal(policies, anchor, done) + {name};
    } else {
      assert Terminal(policies, anchor, done + {name}) == Terminal(policies, anchor, done);
    }
    forall n | n in done && Successor(policies, n) == s ensures s == anchor {
      IsReferenced(policies, anchor, done, n);
    }
  }

  lemma IsReferenced(policies: map<string, ChainCommand>, anchor: string, done: set<string>, n: string)
    requires done <= policies.Keys && n in done
    ensures Successor(policies, n) == anchor || Successor(policies, n) in Referenced(policies, anchor, done)
  {
  }

  lemma BadEdge(policies: map<string, ChainCommand>, anchor: string, done: set<string>, name: string)
    requires AnchorOk(anchor) && anchor !in policies && done <= policies.Keys && name in policies && name !in done
    requires Successor(policies, name) != anchor
    requires !EdgeOk(policies, anchor, name) || Successor(policies, name) in Referenced(policies, anchor, done)
    ensures forall w :: !IsChain(policies, anchor, w)
  {
    hide Trim;
    forall w ensures !IsChain(policies, anchor, w) {
      if IsChain(policies, anchor, w) {
        var i := PlaceOf(policies, anchor, w, name);
        ChainEdge(policies, anchor, w, i);
        var m :| m in done && Successor(policies, m) == Successor(policies, name);
        ChainSharesNothing(policies, anchor, w, name, m);
      }
    }
  }

  lemma OneTerminal(policies: map<string, ChainCommand>, anchor: string)
    requires AnchorOk(anchor) && anchor !in policies && |Terminal(policies, anchor, policies.Keys)| != 1
    ensures forall w :: !IsChain(policies, anchor, w)
  {
    hide Trim;
    forall w ensures !IsChain(policies, anchor, w) {
      if IsChain(policies, anchor, w) { ChainHasOneEnd(policies, anchor, w); }
    }
  }

  lemma ChainHasOneEnd(policies: map<string, ChainCommand>, anchor: string, w: seq<string>)
    requires IsChain(policies, anchor, w) && AnchorOk(anchor) && anchor !in policies
    ensures Terminal(policies, anchor, policies.Keys) == {w[|w| - 1]}
  {
    hide Trim;
    ChainEdge(policies, anchor, w, |w| - 1);
    forall n | n in Terminal(policies, anchor, policies.Keys) ensures n == w[|w| - 1] {
      var i := PlaceOf(policies, anchor, w, n);
      ChainEdge(policies, anchor, w, i);
    }
  }

  // ---------------------------------------------------------------- the walk

  /** The names walked so far, along the successors as they are written. */
  ghost predicate Walked(policies: map<string, ChainCommand>, w: seq<string>, next: string) {
    && (forall i :: 0 <= i < |w| ==> w[i] in policies)
    && (forall i: nat, j: nat :: Different(w, i, j))
    && (forall i: nat :: NextIs(policies, w, next, i))
  }

  predicate NextIs(policies: map<string, ChainCommand>, w: seq<string>, next: string, i: nat) {
    i < |w| && w[i] in policies ==> policies[w[i]].insertBefore == if i + 1 < |w| then w[i + 1] else next
  }

  /** Starting at the only policy nobody refers to, a walk through all of them
      that reaches the anchor is a chain. */
  lemma WalkIsChain(policies: map<string, ChainCommand>, anchor: string, w: seq<string>)
    requires AnchorOk(anchor) && anchor !in policies && EdgesOk(policies, anchor, policies.Keys)
    requires Walked(policies, w, anchor) && |w| == |policies| && w != []
    requires w[0] !in Referenced(policies, anchor, policies.Keys)
    requires forall n :: n in policies && n !in Referenced(policies, anchor, policies.Keys) ==> n == w[0]
    ensures IsChain(policies, anchor, w)
  {
    hide Trim, Referenced, EdgesOk;
    forall i: nat ensures LinkedTo(policies, anchor, w, i) {
      if i + 1 < |w| {
        assert w[i] in policies && w[i + 1] in policies && NextIs(policies, w, anchor, i);
        NextIsTrimmed(policies, anchor, w, i);
        EdgeOf(policies, anchor, w[i]);
      } else if i < |w| {
        assert w[i] in policies && NextIs(policies, w, anchor, i);
      }
    }
  }

  lemma EdgeOf(policies: map<string, ChainCommand>, anchor: string, n: string)
    requires EdgesOk(policies, anchor, policies.Keys) && n in policies
    ensures EdgeOk(policies, anchor, n)
  {
  }

  /** Every policy but the first is somebody's trimmed successor. */
  lemma NextIsTrimmed(policies: map<string, ChainCommand>, anchor: string, w: seq<string>, i: nat)
    requires AnchorOk(anchor) && anchor !in policies && Walked(policies, w, anchor) && i + 1 < |w|
    requires w[0] !in Referenced(policies, anchor, policies.Keys)
    requires forall n :: n in policies && n !in Referenced(policies, anchor, policies.Keys) ==> n == w[0]
    ensures Trim(w[i + 1]) == w[i + 1]
  {
    assert Different(w, 0, i + 1) && NextIs(policies, w, anchor, i);
    assert w[i + 1] in Referenced(policies, anchor, policies.Keys);
    var m :| m in policies && Successor(policies, m) == w[i + 1];
    TrimTwice(policies[m].insertBefore);
  }

  method Walk(policies: map<string, ChainCommand>, anchor: string, head: string) returns (ok: bool)
    requires AnchorOk(anchor) && anchor !in policies && EdgesOk(policies, anchor, policies.Keys) && policies.Keys != {}
    requires head in policies && head !in Referenced(policies, anchor, policies.Keys)
    requires forall n :: n in policies && n !in Referenced(policies, anchor, policies.Keys) ==> n == head
    ensures ok <==> exists w :: IsChain(policies, anchor, w)
  {
    hide Trim, IsChain, EdgesOk;
    var name, visited := head, {};
    ghost var w: seq<string> := [];
    ok := true;
    while ok && name != anchor
      invariant ok ==> Walked(policies, w, name) && visited == Names(w) && (w == [] ==> name == head) && (w != [] ==> w[0] == head)
      invariant !ok ==> forall c :: !IsChain(policies, anchor, c)
      invariant ok ==> |w| <= |policies|
      decreases ok, |policies| - |w|
    {
      if name in visited || name !in policies {
        ok := false;
        WalkFails(policies, anchor, head, w, name);
      } else {
        Grown(policies, w, name);
        visited := visited + {name};
        w := w + [name];
        name := policies[name].insertBefore;
      }
    }
    if ok {
      NamesCount(w);
      ok := |visited| == |policies|;
      assert w != [] by { assert head in policies; }
      if ok { WalkIsChain(policies, anchor, w); } else { ShortWalk(policies, anchor, head, w); }
    }
  }

  lemma Grown(policies: map<string, ChainCommand>, w: seq<string>, name: string)
    requires Walked(policies, w, name) && name in policies && name !in Names(w)
    ensures Walked(policies, w + [name], policies[name].insertBefore) && |w| < |policies|
  {
    var more := w + [name];
    forall i: nat, j: nat ensures Different(more, i, j) {
      assert Different(w, i, j);
      if i < |w| { assert w[i] in w; }
    }
    forall i: nat ensures NextIs(policies, more, policies[name].insertBefore, i) {
      assert NextIs(policies, w, name, i);
    }
    NamesCount(more);
    SmallerSet(Names(w + [name]), policies.Keys);
  }

  /** A chain begins with the only policy nobody refers to. */
  lemma ChainStarts(policies: map<string, ChainCommand>, anchor: string, head: string, c: seq<string>)
    requires AnchorOk(anchor) && anchor !in policies && IsChain(policies, anchor, c)
    requires forall n :: n in policies && n !in Referenced(policies, anchor, policies.Keys) ==> n == head
    ensures c[0] == head
  {
    hide Trim;
    ChainEdge(policies, anchor, c, 0);
    if c[0] in Referenced(policies, anchor, policies.Keys) {
      var m :| m in policies && Successor(policies, m) == c[0] && c[0] != anchor;
      var j := PlaceOf(policies, anchor, c, m);
      ChainEdge(policies, anchor, c, j);
      NoRepeat(policies, anchor, c, 0, j + 1);
    }
  }

  /** Every chain runs along the walk. */
  lemma {:induction false} ChainFollowsWalk(policies: map<string, ChainCommand>, anchor: string, head: string, w: seq<string>, name: string, c: seq<string>, i: nat)
    requires AnchorOk(anchor) && anchor !in policies && IsChain(policies, anchor, c) && Walked(policies, w, name)
    requires forall n :: n in policies && n !in Referenced(policies, anchor, policies.Keys) ==> n == head
    requires (if w == [] then name else w[0]) == head && i <= |w|
    ensures i < |c| && i < |w| ==> c[i] == w[i]
    ensures i == |w| && i < |c| ==> c[i] == name
    ensures i == |w| && i == |c| ==> name == anchor
    ensures i <= |w| ==> i <= |c|
    decreases i
  {
    hide Trim;
    if i == 0 {
      ChainStarts(policies, anchor, head, c);
    } else {
      ChainFollowsWalk(policies, anchor, head, w, name, c, i - 1);
      WalkIsShort(policies, w, name);
      assert i - 1 < |c| && c[i - 1] == w[i - 1];
      assert NextIs(policies, w, name, i - 1);
      assert LinkedTo(policies, anchor, c, i - 1);
    }
  }

  lemma WalkIsShort(policies: map<string, ChainCommand>, w: seq<string>, name: string)
    requires Walked(policies, w, name)
    ensures |w| <= |policies|
  {
    NamesCount(w);
    SmallerSet(Names(w), policies.Keys);
  }

  lemma WalkFails(policies: map<string, ChainCommand>, anchor: string, head: string, w: seq<string>, name: string)
    requires AnchorOk(anchor) && anchor !in policies && Walked(policies, w, name) && name != anchor
    requires forall n :: n in policies && n !in Referenced(policies, anchor, policies.Keys) ==> n == head
    requires (if w == [] then name else w[0]) == head
    requires name in Names(w) || name !in policies
    ensures forall c :: !IsChain(policies, anchor, c)
  {
    hide Trim;
    forall c ensures !IsChain(policies, anchor, c) {
      if IsChain(policies, anchor, c) {
        ChainFollowsWalk(policies, anchor, head, w, name, c, |w|);
        ChainEdge(policies, anchor, c, |w|);
        var j: nat :| j < |w| && w[j] == name;
        ChainFollowsWalk(policies, anchor, head, w, name, c, j);
        NoRepeat(policies, anchor, c, j, |w|);
      }
    }
  }

  lemma NoRepeat(policies: map<string, ChainCommand>, anchor: string, c: seq<string>, i: nat, j: nat)
    requires IsChain(policies, anchor, c) && i < j < |c|
    ensures c[i] != c[j]
  {
    assert Different(c, i, j);
  }

  lemma ShortWalk(policies: map<string, ChainCommand>, anchor: string, head: string, w: seq<string>)
    requires AnchorOk(anchor) && anchor !in policies && Walked(policies, w, anchor) && w != [] && w[0] == head && |w| != |policies|
    requires forall n :: n in policies && n !in Referenced(policies, anchor, policies.Keys) ==> n == head
    ensures forall c :: !IsChain(policies, anchor, c)
  {
    hide Trim;
    forall c ensures !IsChain(policies, anchor, c) {
      if IsChain(policies, anchor, c) {
        ChainFollowsWalk(policies, anchor, head, w, anchor, c, |w|);
        ChainEdge(policies, anchor, c, |w|);
      }
    }
  }

  // ---------------------------------------------------------------- the validator

  predicate NamedApart(commands: seq<ChainCommand>, i: nat, j: nat) {
    i < j < |commands| ==> commands[i].name != commands[j].name
  }

  function ByName(commands: seq<ChainCommand>): map<string, ChainCommand> {
    if commands == [] then map[]
    else ByName(commands[..|commands| - 1])[commands[|commands| - 1].name := commands[|commands| - 1]]
  }

  lemma {:induction false} ByNameFacts(commands: seq<ChainCommand>)
    ensures forall n :: n in ByName(commands) <==> exists i :: 0 <= i < |commands| && commands[i].name == n
    ensures forall n :: n in ByName(commands) ==> ByName(commands)[n].name == n
    ensures (forall i: nat, j: nat :: NamedApart(commands, i, j)) ==>
      forall i :: 0 <= i < |commands| ==> commands[i].name in ByName(commands) && ByName(commands)[commands[i].name] == commands[i]
  {
    if commands != [] {
      var init, last := commands[..|commands| - 1], commands[|commands| - 1];
      ByNameFacts(init);
      assert commands == init + [last];
      forall n ensures n in ByName(commands) <==> exists i :: 0 <= i < |commands| && commands[i].name == n {
        if n in ByName(init) {
          var i :| 0 <= i < |init| && init[i].name == n;
          assert commands[i].name == n;
        }
        if n == last.name { assert commands[|commands| - 1].name == n; }
      }
      if forall i: nat, j: nat :: NamedApart(commands, i, j) {
        forall i: nat, j: nat ensures NamedApart(init, i, j) { assert NamedApart(commands, i, j); }
        forall i | 0 <= i < |commands| ensures commands[i].name in ByName(commands) && ByName(commands)[commands[i].name] == commands[i] {
          assert NamedApart(commands, i, |commands| - 1);
        }
      }
    }
  }

  /** The UPSERTs of a target are a chain of distinct names to its anchor. */
  ghost predicate ValidChain(anchor: string, commands: seq<ChainCommand>) {
    && (forall i: nat, j: nat :: NamedApart(commands, i, j))
    && (commands == [] || (AnchorOk(anchor) && anchor !in ByName(commands) && exists w :: IsChain(ByName(commands), anchor, w)))
  }

  method Collect(commands: seq<ChainCommand>) returns (ok: bool, policies: map<string, ChainCommand>)
    ensures ok <==> forall i: nat, j: nat :: NamedApart(commands, i, j)
    ensures ok ==> policies == ByName(commands)
  {
    ok, policies := true, map[];
    var i := 0;
    while i < |commands| && ok
      invariant 0 <= i <= |commands|
      invariant ok ==> policies == ByName(commands[..i]) && forall l: nat, m: nat :: NamedApart(commands[..i], l, m)
      invariant !ok ==> exists l: nat, m: nat :: !NamedApart(commands, l, m)
      decreases |commands| - i, ok
    {
      ByNameFacts(commands[..i]);
      assert commands[..i + 1][..i] == commands[..i];
      if commands[i].name in policies {
        ok := false;
        var l: nat :| l < i && commands[..i][l].name == commands[i].name;
        assert !NamedApart(commands, l, i);
      } else {
        ghost var more := commands[..i + 1];
        forall l: nat, m: nat ensures NamedApart(more, l, m) {
          assert NamedApart(commands[..i], l, m);
          if l < i { assert commands[..i][l].name in policies; }
        }
        policies := policies[commands[i].name := commands[i]];
        i := i + 1;
      }
    }
    if ok {
      assert commands[..i] == commands;
    }
  }

  lemma SomeName(commands: seq<ChainCommand>)
    ensures |ByName(commands)| == 0 <==> commands == []
  {
    ByNameFacts(commands);
    if commands != [] { assert commands[0].name in ByName(commands).Keys; }
  }

  method Heads(policies: map<string, ChainCommand>, referenced: set<string>) returns (heads: set<string>)
    ensures heads == set n | n in policies && n !in referenced
  {
    heads := {};
    var todo := policies.Keys;
    while todo != {}
      invariant todo <= policies.Keys && heads == set n | n in policies && n !in todo && n !in referenced
      decreases |todo|
    {
      var name :| name in todo;
      if name !in referenced { heads := heads + {name}; }
      todo := todo - {name};
    }
  }

  /** Accepts exactly the chains. */
  method ValidateChain(anchor: string, commands: seq<ChainCommand>) returns (ok: bool)
    ensures ok <==> ValidChain(anchor, commands)
  {
    hide Trim, IsChain, AnchorOk, EdgesOk;
    var apart, policies := Collect(commands);
    ByNameFacts(commands);
    ok := apart;
    if ok && |policies| > 0 {
      assert commands != [];
      ok := CheckAnchor(anchor) && anchor !in policies;
      if ok {
        var edges, referenced := CheckEdges(policies, anchor);
        ok := edges;
        if ok {
          var heads := Heads(policies, referenced);
          ok := |heads| == 1;
          if ok {
            assert heads != {};
            var head :| head in heads;
            OnlyMember(heads, head);
            assert forall n :: n in policies && n !in Referenced(policies, anchor, policies.Keys) ==> n in heads;
            ok := Walk(policies, anchor, head);
          } else {
            ManyHeads(policies, anchor, heads);
          }
        }
      }
    } else if ok {
      SomeName(commands);
    }
  }

  function CheckAnchor(anchor: string): (r: bool)
    ensures r <==> AnchorOk(anchor)
  {
    var terminal := Trim(anchor);
    terminal != "" && anchor == terminal && forall i :: 0 <= i < |terminal| ==> !IsControl(terminal[i])
  }

  lemma ManyHeads(policies: map<string, ChainCommand>, anchor: string, heads: set<string>)
    requires AnchorOk(anchor) && anchor !in policies && |heads| != 1
    requires heads == set n | n in policies && n !in Referenced(policies, anchor, policies.Keys)
    ensures forall w :: !IsChain(policies, anchor, w)
  {
    hide Trim;
    forall w ensures !IsChain(policies, anchor, w) {
      if IsChain(policies, anchor, w) { OneHead(policies, anchor, w); }
    }
  }

  lemma OneHead(policies: map<string, ChainCommand>, anchor: string, w: seq<string>)
    requires IsChain(policies, anchor, w) && AnchorOk(anchor) && anchor !in policies
    ensures (set n | n in policies && n !in Referenced(policies, anchor, policies.Keys)) == {w[0]}
  {
    hide Trim;
    ChainEdge(policies, anchor, w, 0);
    forall n | n in policies ensures n in Referenced(policies, anchor, policies.Keys) <==> n != w[0] {
      var i := PlaceOf(policies, anchor, w, n);
      if i > 0 {
        ChainEdge(policies, anchor, w, i - 1);
        assert Different(w, 0, i);
      }
      if n in Referenced(policies, anchor, policies.Keys) {
        var m :| m in policies && Successor(policies, m) == n && n != anchor;
        var j := PlaceOf(policies, anchor, w, m);
        ChainEdge(policies, anchor, w, j);
        assert Different(w, 0, j + 1);
      }
    }
  }
}
