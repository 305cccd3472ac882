/** The ordered first-match policy table of a FortiGate, and the theory of
    changing it one row at a time without ever accepting a packet that neither
    the first nor the last table accepts. */
module PolicyTables {

  type MKey = nat
  type Packet = nat

  datatype Action = Accept | Deny

  /** The reviewed state of a policy. `packets` is the match set; `other`
      collects the fields that do not take part in matching. */
  datatype Rule = Rule(enabled: bool, action: Action, packets: set<Packet>, other: map<string, string>)

  datatype Row = Row(name: string, rule: Rule)

  /** `order` lists the keys of `rows` from the top of the table to its end. */
  datatype Table = Table(order: seq<MKey>, rows: map<MKey, Row>)

  /** What one row says about one packet. An absent or disabled row passes it on. */
  datatype Verdict = Denied | Passed | Accepted

  function VerdictAt(rows: map<MKey, Row>, k: MKey, p: Packet): Verdict {
    if k !in rows || !rows[k].rule.enabled || p !in rows[k].rule.packets then Passed
    else if rows[k].rule.action == Accept then Accepted
    else Denied
  }

  /** First match wins; the end of the table denies. */
  predicate AcceptsIn(order: seq<MKey>, rows: map<MKey, Row>, p: Packet) {
    order != [] &&
    match VerdictAt(rows, order[0], p)
    case Passed => AcceptsIn(order[1..], rows, p)
    case Accepted => true
    case Denied => false
  }

  predicate Accepts(t: Table, p: Packet) {
    AcceptsIn(t.order, t.rows, p)
  }

  /** The subsequence of `order` made of the keys in `keep`. */
  function Only(order: seq<MKey>, keep: set<MKey>): (r: seq<MKey>) {
    if order == [] then []
    else (if order[0] in keep then [order[0]] else []) + Only(order[1..], keep)
  }

  /** Keys whose verdict on `p` is Passed may be dropped from the order. */
  lemma {:induction false} PassedKeysDrop(order: seq<MKey>, rows: map<MKey, Row>, keep: set<MKey>, p: Packet)
    requires forall k :: k in order && k !in keep ==> VerdictAt(rows, k, p).Passed?
    ensures AcceptsIn(Only(order, keep), rows, p) == AcceptsIn(order, rows, p)
  {
    if order != [] {
      PassedKeysDrop(order[1..], rows, keep, p);
      var tail := Only(order[1..], keep);
      if order[0] in keep {
        assert Only(order, keep) == [order[0]] + tail;
        assert ([order[0]] + tail)[1..] == tail;
      } else {
        assert Only(order, keep) == tail;
      }
    }
  }

  lemma {:induction false} SameVerdictsSameAnswer(order: seq<MKey>, rows1: map<MKey, Row>, rows2: map<MKey, Row>, p: Packet)
    requires forall k :: k in order ==> VerdictAt(rows1, k, p) == VerdictAt(rows2, k, p)
    ensures AcceptsIn(order, rows1, p) == AcceptsIn(order, rows2, p)
  {
    if order != [] {
      assert order[0] in order;
      assert forall k :: k in order[1..] ==> k in order;
      SameVerdictsSameAnswer(order[1..], rows1, rows2, p);
    }
  }

  // ---------------------------------------------------------------- staged changes

  /** `before` with the rows named in `done` replaced by what `after` has there. */
  function Mix(before: map<MKey, Row>, after: map<MKey, Row>, done: set<MKey>): (m: map<MKey, Row>) {
    map k | k in before.Keys + after.Keys && (if k in done then k in after else k in before)
      :: if k in done then after[k] else before[k]
  }

  predicate Changed(before: map<MKey, Row>, after: map<MKey, Row>, k: MKey) {
    (k in before) != (k in after) || (k in before && before[k] != after[k])
  }

  function Rank(v: Verdict): nat {
    match v case Denied => 0 case Passed => 1 case Accepted => 2
  }

  /** The three kinds of change, in the order in which a run makes them. */
  datatype Stage = Restricting | Crossing | Permitting

  function StageRank(s: Stage): nat {
    match s case Restricting => 0 case Crossing => 1 case Permitting => 2
  }

  /** What a change of one packet's verdict may do in each stage. */
  predicate StepAllowed(stage: Stage, was: Verdict, will: Verdict) {
    match stage
    case Restricting => Rank(will) <= Rank(was)
    case Crossing => !(was.Denied? && will.Passed?) && !(was.Passed? && will.Denied?)
    case Permitting => Rank(was) <= Rank(will)
  }

  ghost predicate RowStepAllowed(before: map<MKey, Row>, after: map<MKey, Row>, stage: Stage, k: MKey) {
    forall p: Packet :: StepAllowed(stage, VerdictAt(before, k, p), VerdictAt(after, k, p))
  }

  ghost predicate WellStaged(order: seq<MKey>, before: map<MKey, Row>, after: map<MKey, Row>, stages: map<MKey, Stage>) {
    forall k :: k in order && Changed(before, after, k) ==>
      k in stages && RowStepAllowed(before, after, stages[k], k)
  }

  /** A later stage has begun only if every change of the earlier stages is done. */
  ghost predicate StagesInOrder(order: seq<MKey>, before: map<MKey, Row>, after: map<MKey, Row>,
                                stages: map<MKey, Stage>, done: set<MKey>) {
    forall j, k :: j in order && k in order && j in done && j in stages && k in stages
      && Changed(before, after, j) && Changed(before, after, k) && StageRank(stages[k]) < StageRank(stages[j])
      ==> k in done
  }

  lemma {:induction false} LowerVerdictsAcceptLess(order: seq<MKey>, low: map<MKey, Row>, high: map<MKey, Row>, p: Packet)
    requires forall k :: k in order ==> Rank(VerdictAt(low, k, p)) <= Rank(VerdictAt(high, k, p))
    ensures AcceptsIn(order, low, p) ==> AcceptsIn(order, high, p)
  {
    if order != [] {
      assert order[0] in order;
      assert forall k :: k in order[1..] ==> k in order;
      LowerVerdictsAcceptLess(order[1..], low, high, p);
    }
  }

  /** The middle stage: a row that passes the packet now denied it neither
      before nor after, and a row that accepts it now did so before or will after. */
  lemma {:induction false} CrossingAcceptsNoMore(order: seq<MKey>, before: map<MKey, Row>, now: map<MKey, Row>, after: map<MKey, Row>, p: Packet)
    requires forall k :: k in order && VerdictAt(now, k, p).Passed? ==> !VerdictAt(before, k, p).Denied? && !VerdictAt(after, k, p).Denied?
    requires forall k :: k in order && VerdictAt(now, k, p).Accepted? ==> VerdictAt(before, k, p).Accepted? || VerdictAt(after, k, p).Accepted?
    ensures AcceptsIn(order, now, p) ==> AcceptsIn(order, before, p) || AcceptsIn(order, after, p)
  {
    if order != [] {
      assert order[0] in order;
      assert forall k :: k in order[1..] ==> k in order;
      CrossingAcceptsNoMore(order[1..], before, now, after, p);
    }
  }

  lemma MixVerdict(before: map<MKey, Row>, after: map<MKey, Row>, done: set<MKey>, k: MKey, p: Packet)
    ensures VerdictAt(Mix(before, after, done), k, p)
         == if k in done then VerdictAt(after, k, p) else VerdictAt(before, k, p)
  {
  }

  /** A run that keeps to the stages never accepts a packet that neither its
      first nor its last table accepts, wherever it is stopped. */
  lemma StagedRunIsSafe(order: seq<MKey>, before: map<MKey, Row>, after: map<MKey, Row>,
                        stages: map<MKey, Stage>, done: set<MKey>, p: Packet)
    requires WellStaged(order, before, after, stages)
    requires StagesInOrder(order, before, after, stages, done)
    ensures AcceptsIn(order, Mix(before, after, done), p) ==> AcceptsIn(order, before, p) || AcceptsIn(order, after, p)
  {
    var now := Mix(before, after, done);
    forall k | k in order
      ensures VerdictAt(now, k, p) == if k in done then VerdictAt(after, k, p) else VerdictAt(before, k, p)
      ensures !Changed(before, after, k) ==> VerdictAt(before, k, p) == VerdictAt(after, k, p)
      ensures Changed(before, after, k) ==> StepAllowed(stages[k], VerdictAt(before, k, p), VerdictAt(after, k, p))
    {
      MixVerdict(before, after, done, k, p);
    }
    if j :| j in order && j in done && Changed(before, after, j) && stages[j].Permitting? {
      forall k | k in order ensures Rank(VerdictAt(now, k, p)) <= Rank(VerdictAt(after, k, p)) {
        if Changed(before, after, k) && k !in done { assert stages[k].Permitting?; }
      }
      LowerVerdictsAcceptLess(order, now, after, p);
    } else if j :| j in order && j in done && Changed(before, after, j) && stages[j].Crossing? {
      forall k | k in order
        ensures VerdictAt(now, k, p).Passed? ==> !VerdictAt(before, k, p).Denied? && !VerdictAt(after, k, p).Denied?
        ensures VerdictAt(now, k, p).Accepted? ==> VerdictAt(before, k, p).Accepted? || VerdictAt(after, k, p).Accepted?
      {
        if Changed(before, after, k) {
          assert stages[k].Restricting? ==> k in done;
          assert stages[k].Permitting? ==> k !in done;
        }
      }
      CrossingAcceptsNoMore(order, before, now, after, p);
    } else {
      forall k | k in order ensures Rank(VerdictAt(now, k, p)) <= Rank(VerdictAt(before, k, p)) {
        if Changed(before, after, k) && k in done { assert stages[k].Restricting?; }
      }
      LowerVerdictsAcceptLess(order, now, before, p);
    }
  }

  // ---------------------------------------------------------------- necessity

  function Pair(top: Row, below: Row): map<MKey, Row> {
    map[0 := top, 1 := below]
  }

  /** Every table of every run that takes [top1, below1] to [top2, below2]
      accepts only what the first or the last one accepts. */
  ghost predicate PairRunSafe(top1: Row, top2: Row, below1: Row, below2: Row) {
    forall done: set<MKey>, p: Packet ::
      AcceptsIn([0, 1], Mix(Pair(top1, below1), Pair(top2, below2), done), p)
      ==> AcceptsIn([0, 1], Pair(top1, below1), p) || AcceptsIn([0, 1], Pair(top2, below2), p)
  }

  /** Nothing weaker than the Crossing condition would do: an update made in the
      middle stage is safe above every other update of that stage if and only if
      it neither uncovers a packet it denied nor starts to deny one it passed. */
  lemma CrossingConditionIsExact(top1: Row, top2: Row)
    ensures RowStepAllowed(Pair(top1, top1), Pair(top2, top2), Crossing, 0)
       <==> forall below1, below2 :: RowStepAllowed(Pair(top1, below1), Pair(top2, below2), Crossing, 1)
              ==> PairRunSafe(top1, top2, below1, below2)
  {
    var one, two := Pair(top1, top1), Pair(top2, top2);
    if RowStepAllowed(one, two, Crossing, 0) {
      forall below1, below2 | RowStepAllowed(Pair(top1, below1), Pair(top2, below2), Crossing, 1)
        ensures PairRunSafe(top1, top2, below1, below2)
      {
        forall done: set<MKey>, p: Packet
          ensures AcceptsIn([0, 1], Mix(Pair(top1, below1), Pair(top2, below2), done), p)
              ==> AcceptsIn([0, 1], Pair(top1, below1), p) || AcceptsIn([0, 1], Pair(top2, below2), p)
        {
          PairRunStep(top1, top2, below1, below2, done, p);
        }
      }
    } else {
      var p: Packet :| !StepAllowed(Crossing, VerdictAt(one, 0, p), VerdictAt(two, 0, p));
      UnsafePairExists(top1, top2, p);
    }
  }

  lemma PairRunStep(top1: Row, top2: Row, below1: Row, below2: Row, done: set<MKey>, p: Packet)
    requires RowStepAllowed(Pair(top1, top1), Pair(top2, top2), Crossing, 0)
    requires RowStepAllowed(Pair(top1, below1), Pair(top2, below2), Crossing, 1)
    ensures AcceptsIn([0, 1], Mix(Pair(top1, below1), Pair(top2, below2), done), p)
        ==> AcceptsIn([0, 1], Pair(top1, below1), p) || AcceptsIn([0, 1], Pair(top2, below2), p)
  {
    var before, after := Pair(top1, below1), Pair(top2, below2);
    var stages: map<MKey, Stage> := map[0 := Crossing, 1 := Crossing];
    assert forall q: Packet :: VerdictAt(before, 0, q) == VerdictAt(Pair(top1, top1), 0, q)
                            && VerdictAt(after, 0, q) == VerdictAt(Pair(top2, top2), 0, q);
    assert forall q: Packet :: StepAllowed(Crossing, VerdictAt(Pair(top1, top1), 0, q), VerdictAt(Pair(top2, top2), 0, q));
    assert RowStepAllowed(before, after, Crossing, 0);
    assert WellStaged([0, 1], before, after, stages);
    StagedRunIsSafe([0, 1], before, after, stages, done, p);
  }

  lemma UnsafePairExists(top1: Row, top2: Row, p: Packet)
    requires !StepAllowed(Crossing, VerdictAt(Pair(top1, top1), 0, p), VerdictAt(Pair(top2, top2), 0, p))
    ensures exists below1, below2 :: RowStepAllowed(Pair(top1, below1), Pair(top2, below2), Crossing, 1)
              && !PairRunSafe(top1, top2, below1, below2)
  {
    var on, off := Row("below", Rule(true, Accept, {p}, map[])), Row("below", Rule(true, Accept, {}, map[]));
    var uncovers := VerdictAt(Pair(top1, top1), 0, p).Denied?;
    var below1, below2 := if uncovers then on else off, if uncovers then off else on;
    var done: set<MKey> := if uncovers then {0} else {1};
    var before, after := Pair(top1, below1), Pair(top2, below2);
    MixVerdict(before, after, done, 0, p);
    MixVerdict(before, after, done, 1, p);
    TwoRows(Mix(before, after, done), p);
    TwoRows(before, p);
    TwoRows(after, p);
    assert RowStepAllowed(before, after, Crossing, 1);
    assert !PairRunSafe(top1, top2, below1, below2);
  }

  lemma TwoRows(rows: map<MKey, Row>, p: Packet)
    ensures AcceptsIn([0, 1], rows, p)
        == (VerdictAt(rows, 0, p).Accepted? || (VerdictAt(rows, 0, p).Passed? && VerdictAt(rows, 1, p).Accepted?))
  {
    assert [0, 1][1..] == [1];
    assert [1][1..] == [];
    assert AcceptsIn([1], rows, p) == VerdictAt(rows, 1, p).Accepted?;
  }
}
