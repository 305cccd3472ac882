/** Reading a device table page by page, from a device whose table may change
    between two pages. */
module PagedReads {
  import opened Options

  datatype Entry = Entry(mkey: string, data: nat)

  /** A physical row; filters and access rights may hide it. */
  datatype Row = Row(entry: Entry, visible: bool)

  datatype Table = Table(revision: string, rows: seq<Row>)

  /** A number in a response: missing, malformed, or there. */
  datatype Number = Absent | Malformed | Value(n: nat)

  datatype Response = Response(revision: string, results: Option<seq<Entry>>, size: Number, matched: Number,
                               limitReached: bool, nextIdx: Number)

  const MAX_ROWS: nat := 250000
  const MAX_PAGES: nat := 10000

  function Visible(rows: seq<Row>): seq<Entry> {
    if rows == [] then [] else (if rows[0].visible then [rows[0].entry] else []) + Visible(rows[1..])
  }

  function Min(a: nat, b: nat): nat {
    if a < b then a else b
  }

  /** What a device answers about the table it has at that moment. With a size
      it describes a window of the physical table; without one it says how far it
      has scanned. */
  predicate Answers(t: Table, start: nat, count: nat, r: Response) {
    && r.revision == t.revision
    && (r.results.Some? ==>
          match r.size
          case Value(n) => n == |t.rows| && r.results.value == Visible(t.rows[Min(start, |t.rows|)..Min(start + count, |t.rows|)])
          case _ =>
            if !r.limitReached then r.results.value == Visible(t.rows[Min(start, |t.rows|)..])
            else r.nextIdx.Value? && r.nextIdx.n >= start ==>
              r.nextIdx.n < |t.rows| && r.results.value == Visible(t.rows[start..r.nextIdx.n + 1]))
  }

  /** Every page is answered from the table of that moment, and a revision names
      one table. */
  ghost predicate Honest(serve: (nat, nat, nat) -> Response, tables: nat -> Table) {
    && (forall page, start, count :: Answers(tables(page), start, count, serve(page, start, count)))
    && (forall i, j :: tables(i).revision == tables(j).revision != "" ==> tables(i).rows == tables(j).rows)
  }

  lemma {:induction false} VisibleAppend(a: seq<Row>, b: seq<Row>)
    ensures Visible(a + b) == Visible(a) + Visible(b)
  {
    if a == [] {
      assert a + b == b;
    } else {
      VisibleAppend(a[1..], b);
      assert (a + b)[1..] == a[1..] + b;
      var head := if a[0].visible then [a[0].entry] else [];
      assert Visible(a + b) == head + Visible(a[1..] + b);
      assert head + (Visible(a[1..]) + Visible(b)) == (head + Visible(a[1..])) + Visible(b);
    }
  }

  lemma VisibleWindow(rows: seq<Row>, lo: nat, hi: nat)
    requires lo <= hi <= |rows|
    ensures Visible(rows[..hi]) == Visible(rows[..lo]) + Visible(rows[lo..hi])
  {
    assert rows[..hi] == rows[..lo] + rows[lo..hi];
    VisibleAppend(rows[..lo], rows[lo..hi]);
  }

  lemma {:induction false} VisibleCount(rows: seq<Row>)
    ensures |Visible(rows)| <= |rows|
    ensures |Visible(rows)| == |rows| <==> forall i :: 0 <= i < |rows| ==> rows[i].visible
  {
    if rows != [] {
      VisibleCount(rows[1..]);
      assert forall i :: 0 < i < |rows| ==> rows[i] == rows[1..][i - 1];
    }
  }

  /** As many visible rows as there are rows: nothing is left to read. */
  lemma AllRead(rows: seq<Row>, hi: nat)
    requires hi <= |rows| && |Visible(rows[..hi])| == |rows|
    ensures Visible(rows[..hi]) == Visible(rows) && forall i :: 0 <= i < |rows| ==> rows[i].visible
  {
    VisibleCount(rows[..hi]);
    assert rows[..hi] == rows;
    VisibleCount(rows);
  }

  predicate DifferentKeys(s: seq<Entry>, i: nat, j: nat) {
    i < j < |s| ==> s[i].mkey != s[j].mkey
  }

  /** The page can be added: known limits, keys present, no key repeated. */
  ghost predicate Takeable(result: seq<Entry>, values: seq<Entry>) {
    && (values == [] || |result + values| <= 250000)
    && (forall o :: o in values ==> o.mkey != "")
    && (forall i: nat, j: nat :: DifferentKeys(result + values, i, j))
  }

  function KeysOf(s: seq<Entry>): set<string> {
    set o | o in s :: o.mkey
  }

  /** Takes over a page, entry by entry. */
  method TakePage(result: seq<Entry>, seen: set<string>, values: seq<Entry>) returns (ok: bool, more: seq<Entry>, known: set<string>)
    requires seen == KeysOf(result) && forall i: nat, j: nat :: DifferentKeys(result, i, j)
    ensures ok <==> Takeable(result, values)
    ensures ok ==> more == result + values && known == KeysOf(more) && forall i: nat, j: nat :: DifferentKeys(more, i, j)
  {
    ok, more, known := true, result, seen;
    var i := 0;
    while i < |values| && ok
      invariant 0 <= i <= |values| && (ok ==> more == result + values[..i] && known == KeysOf(more))
      invariant ok ==> forall l: nat, m: nat :: DifferentKeys(more, l, m)
      invariant ok ==> (i > 0 ==> |more| <= MAX_ROWS) && forall l :: 0 <= l < i ==> values[l].mkey != ""
      invariant !ok ==> !Takeable(result, values)
      decreases |values| - i, ok
    {
      var o := values[i];
      assert o in values;
      if o.mkey == "" || o.mkey in known || |more| + 1 > MAX_ROWS {
        ok := false;
        if o.mkey in known {
          var l: nat :| l < |more| && more[l].mkey == o.mkey;
          assert !DifferentKeys(result + values, l, |result| + i);
        }
      } else {
        assert result + values[..i + 1] == (result + values[..i]) + [o];
        OneMoreKey(more, o);
        more, known := more + [o], known + {o.mkey};
        i := i + 1;
      }
    }
    if ok {
      assert values[..i] == values;
      assert forall o :: o in values ==> o.mkey != "";
    }
  }

  lemma OneMoreKey(s: seq<Entry>, o: Entry)
    requires (forall i: nat, j: nat :: DifferentKeys(s, i, j)) && o.mkey !in KeysOf(s)
    ensures forall i: nat, j: nat :: DifferentKeys(s + [o], i, j)
    ensures KeysOf(s + [o]) == KeysOf(s) + {o.mkey}
  {
    forall i: nat, j: nat ensures DifferentKeys(s + [o], i, j) {
      assert DifferentKeys(s, i, j);
      if i < |s| && j == |s| { assert s[i] in s; }
    }
    assert forall q :: q in s + [o] <==> q in s || q == o;
  }

  // ---------------------------------------------------------------- page headers

  /** What the pages so far have claimed about the table. `globalCount` is the
      count on the first page, `pageTotal` the sum of all. */
  datatype Claims = Claims(revision: string, sized: bool, size: nat,
                           globalCount: Option<nat>, globalPossible: bool, pageTotal: nat, pagePossible: bool)

  const NO_CLAIMS := Claims("", false, 0, None, true, 0, true)

  /** A page that contradicts an earlier one, or leaves out what is needed. */
  function Checked(page: nat, c: Claims, r: Response, complete: bool): Option<Claims> {
    if page > 0 && (c.revision == "" || r.revision != c.revision) then None
    else if r.results.None? || r.size.Malformed? || (r.size.Value? && r.size.n > MAX_ROWS) then None
    else if page > 0 && (r.size.Value? != c.sized || (r.size.Value? && r.size.n != c.size)) then None
    else
      var sized := Claims(r.revision, r.size.Value?, if r.size.Value? then r.size.n else 0,
                          c.globalCount, c.globalPossible, c.pageTotal, c.pagePossible);
      if !complete then Some(sized)
      else if !r.size.Value? || !r.matched.Value? || r.matched.n > MAX_ROWS then None
      else Some(sized.(globalCount := if c.globalCount.None? then Some(r.matched.n) else c.globalCount,
                       globalPossible := c.globalPossible && (c.globalCount.None? || c.globalCount == Some(r.matched.n)),
                       pageTotal := c.pageTotal + r.matched.n,
                       pagePossible := c.pagePossible && r.matched.n == |r.results.value|))
  }

  /** The last test of a complete snapshot. */
  predicate Proven(c: Claims, n: nat) {
    && c.sized && n == c.size && c.globalCount.Some?
    && ((c.globalPossible && c.globalCount.value == n) || (c.pagePossible && c.pageTotal == n))
  }

  /** Page `i` of a read fits the first one and has all that is needed. */
  ghost predicate PageOk(read: seq<Response>, complete: bool, i: nat) {
    i < |read| ==>
      && read[i].results.Some? && (read[i].size == Absent || (read[i].size.Value? && read[i].size.n <= 250000))
      && (i > 0 ==> read[i].revision == read[0].revision != "" && read[i].size == read[0].size)
      && (complete ==> read[i].size.Value? && read[i].matched.Value? && read[i].matched.n <= 250000)
  }

  ghost predicate AllCount(read: seq<Response>, n: nat) {
    forall i :: 0 <= i < |read| ==> read[i].matched == Value(n)
  }

  ghost predicate EachCounts(read: seq<Response>) {
    forall i :: 0 <= i < |read| ==> CountsItself(read[i])
  }

  /** The claims sum up the pages. */
  ghost predicate SumsUp(read: seq<Response>, c: Claims, complete: bool) {
    && (forall i: nat :: PageOk(read, complete, i))
    && (read == [] ==> c == NO_CLAIMS)
    && (read != [] ==> c.revision == read[0].revision && (c.sized <==> read[0].size.Value?) && (c.sized ==> read[0].size == Value(c.size)))
    && (complete && read != [] ==> c.globalCount.Some? && (c.globalPossible <==> AllCount(read, c.globalCount.value)) && read[0].matched == Value(c.globalCount.value))
    && (complete ==> (c.pagePossible <==> EachCounts(read)))
  }

  lemma CountsMore(read: seq<Response>, r: Response)
    ensures EachCounts(read + [r]) <==> EachCounts(read) && CountsItself(r)
    ensures forall n: nat :: AllCount(read + [r], n) <==> AllCount(read, n) && r.matched == Value(n)
  {
    var more := read + [r];
    assert more[|read|] == r && forall i :: 0 <= i < |read| ==> more[i] == read[i];
    if EachCounts(more) {
      forall i | 0 <= i < |read| ensures CountsItself(read[i]) { assert CountsItself(more[i]); }
    }
    forall n: nat | AllCount(more, n) ensures AllCount(read, n) {
      forall i | 0 <= i < |read| ensures read[i].matched == Value(n) { assert more[i].matched == Value(n); }
    }
  }

  /** A page is let through exactly if it fits. */
  lemma CheckedIs(read: seq<Response>, c: Claims, r: Response, complete: bool)
    requires SumsUp(read, c, complete)
    ensures var checked := Checked(|read|, c, r, complete);
      && (checked.Some? <==> PageOk(read + [r], complete, |read|))
      && (checked.Some? ==> SumsUp(read + [r], checked.value, complete))
  {
    var more, checked := read + [r], Checked(|read|, c, r, complete);
    assert PageOk(read, complete, 0) && more[|read|] == r && (read != [] ==> more[0] == read[0]);
    if checked.Some? {
      forall i: nat ensures PageOk(more, complete, i) { assert PageOk(read, complete, i); }
      if complete {
        CountsMore(read, r);
      }
    }
  }

  lemma NothingRead(complete: bool)
    ensures SumsUp([], NO_CLAIMS, complete)
  {
  }

  lemma CountsAreRight(read: seq<Response>, c: Claims, n: nat)
    requires SumsUp(read, c, true) && Counted(c, n, n)
    ensures AllCount(read, n) || EachCounts(read)
  {
  }

  // ---------------------------------------------------------------- the reader

  /** What has been read is a beginning of one table: all of its visible rows up
      to the physical position `start`. */
  ghost predicate ReadUpTo(tables: nat -> Table, page: nat, start: nat, c: Claims, result: seq<Entry>) {
    var t := tables(0);
    && (page > 0 ==> c.revision == t.revision != "" && start <= |t.rows|)
    && (page == 0 ==> start == 0)
    && (page > 0 && c.sized ==> c.size == |t.rows|)
    && (forall i :: 0 <= i < page ==> tables(i).rows == t.rows)
    && start <= |t.rows| && result == Visible(t.rows[..start])
  }

  /** The result is the table: its visible rows, each once and in order, of one
      revision; in complete mode no row is hidden. */
  ghost predicate IsTable(tables: nat -> Table, result: seq<Entry>, complete: bool) {
    && result == Visible(tables(0).rows) && (forall i: nat, j: nat :: DifferentKeys(result, i, j))
    && (complete ==> forall i :: 0 <= i < |tables(0).rows| ==> tables(0).rows[i].visible)
  }

  lemma PageExtends(serve: (nat, nat, nat) -> Response, tables: nat -> Table, page: nat, start: nat, count: nat, c: Claims,
                    result: seq<Entry>, complete: bool)
    requires Honest(serve, tables) && ReadUpTo(tables, page, start, c, result) && count > 0
    requires Checked(page, c, serve(page, start, count), complete).Some?
    ensures var r, t := serve(page, start, count), tables(0);
      var now := Checked(page, c, r, complete).value;
      && r.results.Some? && tables(page).rows == t.rows && now.revision == t.revision && (complete ==> now.sized)
      && (r.size.Value? ==> now.sized && now.size == |t.rows| && result + r.results.value == Visible(t.rows[..Min(start + count, |t.rows|)]))
      && (!r.size.Value? ==> !now.sized)
      && (!r.size.Value? && !r.limitReached ==> result + r.results.value == Visible(t.rows))
      && (!r.size.Value? && r.limitReached && r.nextIdx.Value? && r.nextIdx.n >= start ==>
            r.nextIdx.n < |t.rows| && result + r.results.value == Visible(t.rows[..r.nextIdx.n + 1]))
  {
    var r, t := serve(page, start, count), tables(0);
    assert Answers(tables(page), start, count, r);
    if page > 0 { assert tables(page).revision == tables(0).revision; }
    if r.size.Value? {
      VisibleWindow(t.rows, start, Min(start + count, |t.rows|));
    } else if !r.limitReached {
      VisibleWindow(t.rows, start, |t.rows|);
      assert t.rows[..|t.rows|] == t.rows && t.rows[start..|t.rows|] == t.rows[start..];
    } else if r.nextIdx.Value? && r.nextIdx.n >= start {
      VisibleWindow(t.rows, start, r.nextIdx.n + 1);
    }
  }

  /** Enough has been read when all rows are there or the window reached the end. */
  lemma LastPage(tables: nat -> Table, hi: nat, size: nat, result: seq<Entry>, complete: bool)
    requires hi <= |tables(0).rows| == size && result == Visible(tables(0).rows[..hi])
    requires |result| == size || (hi == size && !complete)
    requires forall i: nat, j: nat :: DifferentKeys(result, i, j)
    ensures IsTable(tables, result, complete)
  {
    var rows := tables(0).rows;
    if |result| == size {
      AllRead(rows, hi);
    } else {
      assert rows[..hi] == rows;
    }
  }

  /** A device that keeps its table and says the same about it throughout: its size
      and, for a complete snapshot, the count of all matches with nothing hidden; or,
      without a size, how far each shortened page has scanned. */
  ghost predicate Cooperative(serve: (nat, nat, nat) -> Response, tables: nat -> Table, pageSize: nat, complete: bool) {
    var rows := tables(0).rows;
    && 1 <= pageSize <= 250000 && |rows| <= 250000
    && tables(0).revision != "" && (forall page :: tables(page) == tables(0))
    && (Sizes(serve, pageSize, |rows|, complete) || (Scans(serve, pageSize, |rows|) && !complete))
    && (forall o :: o in Visible(rows) ==> o.mkey != "") && (forall i: nat, j: nat :: DifferentKeys(Visible(rows), i, j))
    && (complete ==> forall i :: 0 <= i < |rows| ==> rows[i].visible)
  }

  ghost predicate Sizes(serve: (nat, nat, nat) -> Response, pageSize: nat, n: nat, complete: bool) {
    && n <= 10000 * pageSize && (forall page, start :: Described(serve(page, start, pageSize), n))
    && (complete ==> CountsAll(serve, pageSize, n) || CountsPages(serve, pageSize))
  }

  ghost predicate Scans(serve: (nat, nat, nat) -> Response, pageSize: nat, n: nat) {
    n < 10000 && forall page, start :: Scanned(serve(page, start, pageSize), start)
  }

  ghost predicate Described(r: Response, n: nat) {
    r.size == Value(n) && r.results.Some?
  }

  /** Every page counts the matches in the whole table. */
  ghost predicate CountsAll(serve: (nat, nat, nat) -> Response, pageSize: nat, n: nat) {
    forall page, start :: serve(page, start, pageSize).matched == Value(n)
  }

  /** Every page counts its own matches. */
  ghost predicate CountsPages(serve: (nat, nat, nat) -> Response, pageSize: nat) {
    forall page, start :: CountsItself(serve(page, start, pageSize))
  }

  ghost predicate CountsItself(r: Response) {
    r.results.Some? && r.matched == Value(|r.results.value|)
  }

  /** The counts so far are consistent, one way or the other. */
  ghost predicate Counted(c: Claims, n: nat, read: nat) {
    c.globalCount.Some? && ((c.globalPossible && c.globalCount == Some(n)) || (c.pagePossible && c.pageTotal == read))
  }

  ghost predicate Scanned(r: Response, start: nat) {
    r.size == Absent && r.results.Some? && (r.limitReached ==> r.nextIdx.Value? && r.nextIdx.n >= start)
  }

  /** The reader is on its way through a cooperative table. */
  ghost predicate OnItsWay(serve: (nat, nat, nat) -> Response, tables: nat -> Table, pages: nat, start: nat, pageSize: nat, c: Claims, result: seq<Entry>, complete: bool) {
    var n := |tables(0).rows|;
    && (pages > 0 ==> c.revision != "")
    && (if Sizes(serve, pageSize, n, complete) then
          && start == pages * pageSize && (pages > 0 ==> c.sized && start < n)
          && (complete && CountsAll(serve, pageSize, n) ==> c.globalPossible && c.globalCount == if pages == 0 then None else Some(n))
          && (complete && !CountsAll(serve, pageSize, n) ==> c.pagePossible && c.pageTotal == |result|)
        else
          pages <= start && (pages > 0 ==> !c.sized))
  }

  /** The count that the device keeps to holds so far. */
  ghost predicate Counts(serve: (nat, nat, nat) -> Response, tables: nat -> Table, pageSize: nat, c: Claims, result: seq<Entry>) {
    var n := |tables(0).rows|;
    c.globalCount.Some? && if CountsAll(serve, pageSize, n) then c.globalPossible && c.globalCount == Some(n) else c.pagePossible && c.pageTotal == |result|
  }

  lemma CooperativePage(serve: (nat, nat, nat) -> Response, tables: nat -> Table, pages: nat, start: nat, pageSize: nat, c: Claims,
                        result: seq<Entry>, complete: bool)
    requires Honest(serve, tables) && Cooperative(serve, tables, pageSize, complete) && ReadUpTo(tables, pages, start, c, result)
    requires OnItsWay(serve, tables, pages, start, pageSize, c, result, complete)
    ensures var r := serve(pages, start, pageSize);
      var now := Checked(pages, c, r, complete);
      && now.Some? && now.value.revision != "" && Takeable(result, r.results.value)
      && (now.value.sized <==> Sizes(serve, pageSize, |tables(0).rows|, complete))
      && (!now.value.sized ==> Scanned(r, start))
      && (complete ==> Counts(serve, tables, pageSize, now.value, result + r.results.value))
  {
    hide Honest, Cooperative, Sizes, Scans, CountsAll, ReadUpTo, Takeable, Visible, Checked, OnItsWay, Counts;
    if Sizes(serve, pageSize, |tables(0).rows|, complete) {
      SizedPage(serve, tables, pages, start, pageSize, c, result, complete);
    } else {
      ScannedPage(serve, tables, pages, start, pageSize, c, result, complete);
    }
  }

  lemma SizedPage(serve: (nat, nat, nat) -> Response, tables: nat -> Table, pages: nat, start: nat, pageSize: nat, c: Claims,
                  result: seq<Entry>, complete: bool)
    requires Honest(serve, tables) && Cooperative(serve, tables, pageSize, complete) && ReadUpTo(tables, pages, start, c, result)
    requires OnItsWay(serve, tables, pages, start, pageSize, c, result, complete) && Sizes(serve, pageSize, |tables(0).rows|, complete)
    ensures var r := serve(pages, start, pageSize);
      var now := Checked(pages, c, r, complete);
      && now.Some? && now.value.revision != "" && Takeable(result, r.results.value) && now.value.sized
      && (complete ==> Counts(serve, tables, pageSize, now.value, result + r.results.value))
  {
    hide Takeable, Visible;
    var r, rows := serve(pages, start, pageSize), tables(0).rows;
    assert Described(r, |rows|);
    ItsOwnAnswer(serve, tables, pages, start, pageSize, complete);
    VisibleCount(rows[start..Min(start + pageSize, |rows|)]);
    if complete && !CountsAll(serve, pageSize, |rows|) { assert CountsItself(r); }
    PageExtends(serve, tables, pages, start, pageSize, c, result, complete);
    PrefixTakeable(rows, Min(start + pageSize, |rows|), result, r.results.value);
  }

  lemma ScannedPage(serve: (nat, nat, nat) -> Response, tables: nat -> Table, pages: nat, start: nat, pageSize: nat, c: Claims,
                    result: seq<Entry>, complete: bool)
    requires Honest(serve, tables) && Cooperative(serve, tables, pageSize, complete) && ReadUpTo(tables, pages, start, c, result)
    requires OnItsWay(serve, tables, pages, start, pageSize, c, result, complete) && !Sizes(serve, pageSize, |tables(0).rows|, complete)
    ensures var r := serve(pages, start, pageSize);
      var now := Checked(pages, c, r, complete);
      && !complete && now.Some? && now.value.revision != "" && Takeable(result, r.results.value) && !now.value.sized && Scanned(r, start)
  {
    hide Takeable, Visible, Sizes;
    var r, rows := serve(pages, start, pageSize), tables(0).rows;
    assert Scanned(r, start);
    ItsOwnAnswer(serve, tables, pages, start, pageSize, complete);
    PageExtends(serve, tables, pages, start, pageSize, c, result, complete);
    assert rows[..|rows|] == rows;
    PrefixTakeable(rows, if r.limitReached then r.nextIdx.n + 1 else |rows|, result, r.results.value);
  }

  lemma ItsOwnAnswer(serve: (nat, nat, nat) -> Response, tables: nat -> Table, pages: nat, start: nat, pageSize: nat, complete: bool)
    requires Honest(serve, tables) && Cooperative(serve, tables, pageSize, complete)
    ensures Answers(tables(0), start, pageSize, serve(pages, start, pageSize))
  {
    assert tables(pages) == tables(0);
    assert Answers(tables(pages), start, pageSize, serve(pages, start, pageSize));
  }

  lemma PrefixTakeable(rows: seq<Row>, hi: nat, result: seq<Entry>, values: seq<Entry>)
    requires hi <= |rows| <= MAX_ROWS && result + values == Visible(rows[..hi])
    requires (forall o :: o in Visible(rows) ==> o.mkey != "") && forall i: nat, j: nat :: DifferentKeys(Visible(rows), i, j)
    ensures Takeable(result, values) && |result + values| <= |rows|
  {
    VisibleCount(rows[..hi]);
    VisibleWindow(rows, hi, |rows|);
    assert rows[..|rows|] == rows;
    var all, rest := Visible(rows), Visible(rows[hi..|rows|]);
    assert all == (result + values) + rest;
    forall o | o in values ensures o.mkey != "" { assert o in all; }
    forall i: nat, j: nat ensures DifferentKeys(result + values, i, j) { assert DifferentKeys(all, i, j); }
  }

  lemma EnoughPages(pages: nat, pageSize: nat, rows: nat)
    requires rows <= MAX_PAGES * pageSize && pages * pageSize < rows
    ensures pages < MAX_PAGES
  {
    if pages >= MAX_PAGES {
      assert pages * pageSize >= MAX_PAGES * pageSize by { MulMonotone(MAX_PAGES, pages, pageSize); }
    }
  }

  lemma MulMonotone(a: nat, b: nat, k: nat)
    requires a <= b
    ensures a * k <= b * k
  {
  }

  lemma Setout(tables: nat -> Table, pageSize: nat, complete: bool)
    ensures ReadUpTo(tables, 0, 0, NO_CLAIMS, []) && forall serve :: OnItsWay(serve, tables, 0, 0, pageSize, NO_CLAIMS, [], complete)
  {
    assert tables(0).rows[..0] == [];
  }

  lemma PagesLeft(serve: (nat, nat, nat) -> Response, tables: nat -> Table, pages: nat, start: nat, pageSize: nat, c: Claims, result: seq<Entry>, complete: bool)
    requires Cooperative(serve, tables, pageSize, complete) && OnItsWay(serve, tables, pages, start, pageSize, c, result, complete)
    requires start <= |tables(0).rows|
    ensures pages < MAX_PAGES
  {
    if Sizes(serve, pageSize, |tables(0).rows|, complete) && pages > 0 { EnoughPages(pages, pageSize, |tables(0).rows|); }
  }

  lemma StartsWithin(tables: nat -> Table, page: nat, start: nat, c: Claims, result: seq<Entry>)
    requires ReadUpTo(tables, page, start, c, result)
    ensures start <= |tables(0).rows|
  {
  }

  lemma PagesAgree(tables: nat -> Table, page: nat, start: nat, c: Claims, result: seq<Entry>)
    requires ReadUpTo(tables, page, start, c, result) && tables(page).rows == tables(0).rows
    ensures forall i :: 0 <= i < page + 1 ==> tables(i).rows == tables(0).rows
  {
  }

  lemma AllReadable(serve: (nat, nat, nat) -> Response, tables: nat -> Table, pageSize: nat, c: Claims, result: seq<Entry>, complete: bool)
    requires Cooperative(serve, tables, pageSize, complete)
    requires complete ==> Counts(serve, tables, pageSize, c, result)
    ensures complete ==> Readable(tables, c, |result|)
  {
  }

  /** One page further. */
  lemma GoesOn(serve: (nat, nat, nat) -> Response, tables: nat -> Table, page: nat, start: nat, next: nat, pageSize: nat, c: Claims, now: Claims,
               result: seq<Entry>, more: seq<Entry>, complete: bool, cooperative: bool)
    requires ReadUpTo(tables, page, start, c, result) && tables(page).rows == tables(0).rows
    requires now.revision == tables(0).revision != "" && start < next <= |tables(0).rows| && more == Visible(tables(0).rows[..next])
    requires now.sized ==> now.size == |tables(0).rows|
    requires cooperative ==> OnItsWay(serve, tables, page, start, pageSize, c, result, complete)
    requires cooperative ==> (now.sized <==> Sizes(serve, pageSize, |tables(0).rows|, complete))
    requires cooperative && now.sized ==> next == start + pageSize < |tables(0).rows|
    requires cooperative && complete ==> Counts(serve, tables, pageSize, now, more)
    ensures ReadUpTo(tables, page + 1, next, now, more)
    ensures cooperative ==> OnItsWay(serve, tables, page + 1, next, pageSize, now, more, complete)
  {
    hide Visible, Sizes, CountsAll;
    if cooperative && now.sized { assert (page + 1) * pageSize == page * pageSize + pageSize; }
  }

  lemma UnfitSize(serve: (nat, nat, nat) -> Response, tables: nat -> Table, pageSize: nat, complete: bool)
    requires pageSize < 1 || pageSize > MAX_ROWS
    ensures !Cooperative(serve, tables, pageSize, complete)
  {
  }

  datatype Outcome = Reading | Refused | Accepted

  /** Reads a table. Whatever the device does between two pages, an accepted
      result is one table of one revision. */
  method ReadTable(serve: (nat, nat, nat) -> Response, ghost tables: nat -> Table, pageSize: nat, complete: bool)
    returns (outcome: Outcome, result: seq<Entry>, pages: nat, ghost read: seq<Response>)
    requires Honest(serve, tables)
    ensures outcome != Reading && pages <= 10000
    ensures outcome == Accepted ==> IsTable(tables, result, complete) && forall i :: 0 <= i < pages ==> tables(i).rows == tables(0).rows
    ensures outcome == Accepted ==> |read| == pages && forall i: nat :: PageOk(read, complete, i)
    ensures outcome == Accepted && complete ==> AllCount(read, |result|) || EachCounts(read)
    ensures Cooperative(serve, tables, pageSize, complete) ==> outcome == Accepted
  {
    hide Checked, Takeable, IsTable, Cooperative, Sizes, Scanned, Honest, ReadUpTo, OnItsWay, Visible, Readable, Counts, CountsAll, CountsPages, Counted, AllCount, EachCounts, PageOk;
    outcome, result, pages, read := Reading, [], 0, [];
    var seen: set<string>, start, claims := {}, 0, NO_CLAIMS;
    assert seen == KeysOf(result);
    assert SumsUp([], NO_CLAIMS, complete) by { NothingRead(complete); }
    ghost var cooperative := Cooperative(serve, tables, pageSize, complete);
    if pageSize < 1 || pageSize > MAX_ROWS {
      outcome := Refused;
      UnfitSize(serve, tables, pageSize, complete);
    }
    Setout(tables, pageSize, complete);
    while outcome == Reading
      invariant pages <= MAX_PAGES && (outcome == Reading ==> ReadUpTo(tables, pages, start, claims, result) && seen == KeysOf(result))
      invariant outcome == Reading ==> (forall i: nat, j: nat :: DifferentKeys(result, i, j)) && 1 <= pageSize
      invariant outcome == Accepted ==> IsTable(tables, result, complete) && forall i :: 0 <= i < pages ==> tables(i).rows == tables(0).rows
      invariant outcome != Refused ==> |read| == pages && SumsUp(read, claims, complete)
      invariant outcome == Accepted && complete ==> Counted(claims, |result|, |result|)
      invariant cooperative ==> outcome != Refused && (outcome == Reading ==> OnItsWay(serve, tables, pages, start, pageSize, claims, result, complete))
      decreases if outcome == Reading then 1 else 0, MAX_PAGES - pages
    {
      StartsWithin(tables, pages, start, claims, result);
      if cooperative {
        PagesLeft(serve, tables, pages, start, pageSize, claims, result, complete);
      }
      if pages == MAX_PAGES {
        outcome := Refused;
      } else {
        var r := serve(pages, start, pageSize);
        if cooperative { CooperativePage(serve, tables, pages, start, pageSize, claims, result, complete); }
        var checked := Checked(pages, claims, r, complete);
        CheckedIs(read, claims, r, complete);
        if checked.None? {
          outcome := Refused;
        } else {
          PageExtends(serve, tables, pages, start, pageSize, claims, result, complete);
          var ok, more, known := TakePage(result, seen, r.results.value);
          if !ok {
            outcome := Refused;
          } else {
            ghost var was := start;
            if cooperative { AllReadable(serve, tables, pageSize, checked.value, more, complete); }
            outcome, start := Judge(tables, r, checked.value, start, pageSize, more, complete);
            if outcome == Reading { GoesOn(serve, tables, pages, was, start, pageSize, claims, checked.value, result, more, complete, cooperative); }
            PagesAgree(tables, pages, was, claims, result);
            result, seen, claims := more, known, checked.value;
            pages, read := pages + 1, read + [r];
          }
        }
      }
    }
    if outcome == Accepted && complete { CountsAreRight(read, claims, |result|); }
  }

  /** Nothing is hidden, and the counts are consistent. */
  ghost predicate Readable(tables: nat -> Table, c: Claims, read: nat) {
    var rows := tables(0).rows;
    (forall i :: 0 <= i < |rows| ==> rows[i].visible) && Counted(c, |rows|, read)
  }

  /** Decides whether the page just read was the last, and where the next begins. */
  method Judge(ghost tables: nat -> Table, r: Response, c: Claims, start: nat, pageSize: nat, result: seq<Entry>, complete: bool)
    returns (outcome: Outcome, next: nat)
    requires r.results.Some? && pageSize >= 1 && (r.size.Value? <==> c.sized) && c.revision == tables(0).revision && start <= |tables(0).rows|
    requires c.sized ==> c.size == |tables(0).rows| && result == Visible(tables(0).rows[..Min(start + pageSize, |tables(0).rows|)])
    requires !c.sized && !r.limitReached ==> result == Visible(tables(0).rows)
    requires !c.sized && r.limitReached && r.nextIdx.Value? && r.nextIdx.n >= start ==>
      r.nextIdx.n < |tables(0).rows| && result == Visible(tables(0).rows[..r.nextIdx.n + 1])
    requires (forall i: nat, j: nat :: DifferentKeys(result, i, j)) && (complete ==> c.sized)
    ensures outcome == Accepted ==> IsTable(tables, result, complete)
    ensures outcome == Accepted && complete ==> Counted(c, |result|, |result|)
    ensures outcome == Reading ==> c.revision != "" && start < next <= |tables(0).rows| && result == Visible(tables(0).rows[..next])
    ensures c.sized && c.revision != "" && (complete ==> Readable(tables, c, |result|)) ==>
      outcome != Refused && (outcome == Reading ==> next == start + pageSize && next < |tables(0).rows|)
    ensures !c.sized && c.revision != "" && Scanned(r, start) ==> outcome != Refused
  {
    next := start;
    if c.sized { VisibleCount(tables(0).rows[..Min(start + pageSize, c.size)]); }
    if c.sized {
      var hi := Min(start + pageSize, c.size);
      if |result| > c.size {
        outcome := Refused;
      } else if |result| == c.size || start + pageSize >= c.size {
        outcome := if !complete || Proven(c, |result|) then Accepted else Refused;
        if outcome == Accepted { LastPage(tables, hi, c.size, result, complete); }
      } else if c.revision == "" {
        outcome := Refused;
      } else {
        outcome, next := Reading, start + pageSize;
      }
    } else if !r.limitReached {
      outcome := Accepted;
    } else if c.revision == "" || !r.nextIdx.Value? || r.nextIdx.n < start {
      outcome := Refused;
    } else {
      outcome, next := Reading, r.nextIdx.n + 1;
    }
  }
}
