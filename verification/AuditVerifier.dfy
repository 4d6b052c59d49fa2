/**
 The chain reader (scripts/verify_audit_chain.py).

 Rows are read through a recomputation `rehash` of a row's hash from its stored content; `RehashBy` is the
 one the source uses.
*/
module AuditVerifier {
  import opened Outcomes
  import opened CanonicalJson
  import opened AuditChain
  import opened Sequences

  /** What a row's hash is computed from.  `data` holds every column that is not spelled out. */
  datatype Content = Content(
    data: Data,
    chainSeq: Option<int>,
    format: Option<int>,      // chain_format
    prev: Option<string>)     // prev_hash

  /** A stored row: its content and its record_hash, NULL for a row outside every chain. */
  datatype Row = Row(content: Content, hash: Option<string>) {
    function Prev(): Option<string> { content.prev }
    function ChainSeq(): Option<int> { content.chainSeq }
    function Position(): int { OrZero(content.chainSeq) }
  }

  /** `chain_seq or 0`. */
  function OrZero(position: Option<int>): (n: int)
    ensures position == Some(n) || (position.None? && n == 0)
  {
    if position.None? then 0 else position.value
  }

  type Rehash = Content -> Result<string, ChainError>

  function SeqValue(position: Option<int>): Value {
    if position.None? then Null else Int(position.value)
  }

  /** `_row_dict`: the row as the writer saw it. */
  function RowDict(c: Content): Data {
    c.data["chain_seq" := SeqValue(c.chainSeq)]
  }

  function RehashBy(scheme: Scheme): Rehash {
    (c: Content) => ComputeRecordHash(scheme, RowDict(c), c.prev, c.format)
  }

  predicate ContentOk(rehash: Rehash, row: Row) {
    row.hash.Some? && rehash(row.content) == Ok(row.hash.value)
  }

  predicate Contiguous(a: Row, b: Row) { b.Position() == a.Position() + 1 }

  predicate Linked(a: Row, b: Row) { Contiguous(a, b) ==> b.Prev() == a.hash }

  predicate ContentsOk(rehash: Rehash, rows: seq<Row>) {
    forall i | 0 <= i < |rows| :: ContentOk(rehash, rows[i])
  }

  predicate AllLinked(rows: seq<Row>) { forall i | 0 < i < |rows| :: Linked(rows[i - 1], rows[i]) }

  /** No two rows claim the same predecessor. */
  predicate NoFork(rows: seq<Row>) {
    forall i, j | 0 <= i < j < |rows| && rows[i].Prev().Some? :: rows[i].Prev() != rows[j].Prev()
  }

  /** Neither a break nor a fork: every row hashes to its record_hash and every adjacent pair is linked. */
  predicate Verifies(rehash: Rehash, rows: seq<Row>) {
    ContentsOk(rehash, rows) && AllLinked(rows) && NoFork(rows)
  }

  predicate GapFree(rows: seq<Row>) { forall i | 0 < i < |rows| :: Contiguous(rows[i - 1], rows[i]) }

  // ---------------------------------------------------------------- the report

  datatype BreakKind = UnknownFormatBreak | ContentModified | LinkBroken

  /** A break names the row's trace, except where its format is unknown. */
  datatype Break = Break(chainSeq: Option<int>, trace: Option<Value>, kind: BreakKind)

  /** A row that claims a predecessor: its position and trace. */
  datatype Claimant = Claimant(chainSeq: Option<int>, trace: Value)

  datatype Fork = Fork(sharedPrev: string, claimants: seq<Claimant>)

  datatype Gap = Gap(before: Option<int>, after: Option<int>)

  function Trace(row: Row): Value { Get(row.content.data, "trace_id") }

  function ClaimantOf(row: Row): Claimant { Claimant(row.ChainSeq(), Trace(row)) }

  function BreakOf(row: Row, kind: BreakKind): (r: Break)
    ensures r.chainSeq == row.content.chainSeq && r.kind == kind
    ensures r.trace == if kind == UnknownFormatBreak then None else Some(Get(row.content.data, "trace_id"))
  {
    Break(row.ChainSeq(), if kind.UnknownFormatBreak? then None else Some(Trace(row)), kind)
  }

  datatype TenantReport = TenantReport(
    rowsVerified: nat,
    formatCounts: map<Option<int>, nat>,
    gapSpans: seq<Gap>,
    forks: seq<Fork>,
    firstBreak: Option<Break>,
    genesisSeq: Option<int>,
    tipSeq: Option<int>,
    unchainedRows: nat)
  {
    predicate Clean() { firstBreak.None? && forks == [] }
  }

  predicate Hashed(row: Row) { row.hash.Some? }

  function Chained(rows: seq<Row>): (r: seq<Row>)
    ensures |r| <= |rows|
  {
    if rows == [] then []
    else
      var init, x := Chained(rows[..|rows| - 1]), rows[|rows| - 1];
      if Hashed(x) then init + [x] else init
  }

  /** The rows in a chain, in the order they were read. */
  lemma {:induction false} ChainedSelects(rows: seq<Row>)
    ensures Selects(rows, Hashed, Chained(rows))
  {
    if rows == [] {
      SelectsNone<Row>(Hashed);
    } else {
      ChainedSelects(rows[..|rows| - 1]);
      SelectsLast(rows, Hashed, Chained(rows[..|rows| - 1]));
    }
  }

  lemma {:induction false} AllChained(rows: seq<Row>)
    requires forall i | 0 <= i < |rows| :: rows[i].hash.Some?
    ensures Chained(rows) == rows
  {
    if rows != [] {
      var n := |rows| - 1;
      AllChained(rows[..n]);
      ChainedLast(rows[..n], rows[n]);
      assert rows == rows[..n] + [rows[n]];
    }
  }

  lemma {:induction false} ChainedLast(rows: seq<Row>, row: Row)
    ensures Chained(rows + [row]) == if row.hash.Some? then Chained(rows) + [row] else Chained(rows)
  {
    assert (rows + [row])[..|rows|] == rows;
  }

  /** A row outside every chain, wherever it stands, is passed over. */
  lemma {:induction false} ChainedSkips(a: seq<Row>, row: Row, b: seq<Row>)
    requires row.hash.None?
    ensures Chained(a + [row] + b) == Chained(a + b)
  {
    if b == [] {
      ChainedLast(a, row);
      assert a + [row] + b == a + [row] && a + b == a;
    } else {
      var init, x := b[..|b| - 1], b[|b| - 1];
      ChainedSkips(a, row, init);
      ChainedLast(a + [row] + init, x);
      ChainedLast(a + init, x);
      assert a + [row] + b == (a + [row] + init) + [x] && a + b == (a + init) + [x];
    }
  }

  /** The rows whose prev_hash is `h`, in order. */
  function Claims(rows: seq<Row>, h: string): seq<Claimant> {
    if rows == [] then []
    else
      var init, x := Claims(rows[..|rows| - 1], h), rows[|rows| - 1];
      if x.Prev() == Some(h) then init + [ClaimantOf(x)] else init
  }

  function Gaps(rows: seq<Row>): seq<Gap> {
    if |rows| < 2 then []
    else
      var init, a, b := Gaps(rows[..|rows| - 1]), rows[|rows| - 2], rows[|rows| - 1];
      if Contiguous(a, b) then init else init + [Gap(a.ChainSeq(), b.ChainSeq())]
  }

  function CountOf(counts: map<Option<int>, nat>, f: Option<int>): nat {
    if f in counts then counts[f] else 0
  }

  function FormatCounts(rows: seq<Row>): map<Option<int>, nat> {
    if rows == [] then map[]
    else
      var m, f := FormatCounts(rows[..|rows| - 1]), rows[|rows| - 1].content.format;
      m[f := CountOf(m, f) + 1]
  }

  /** What the walk finds wrong with row `i`, if anything. */
  function BreakAt(rehash: Rehash, rows: seq<Row>, i: nat): (r: Option<BreakKind>)
    requires i < |rows|
    ensures r == Some(UnknownFormatBreak) <==> rehash(rows[i].content).Err?
    ensures r == Some(ContentModified) <==>
            rehash(rows[i].content).Ok? && (rows[i].hash.None? || rows[i].hash.value != rehash(rows[i].content).value)
    ensures r == Some(LinkBroken) <==>
            && rows[i].hash.Some? && rehash(rows[i].content) == Ok(rows[i].hash.value)
            && i > 0 && rows[i].content.prev != rows[i - 1].hash
            && OrZero(rows[i].content.chainSeq) == OrZero(rows[i - 1].content.chainSeq) + 1
  {
    var h := rehash(rows[i].content);
    if h.Err? then Some(UnknownFormatBreak)
    else if rows[i].hash != Some(h.value) then Some(ContentModified)
    else if i > 0 && !Linked(rows[i - 1], rows[i]) then Some(LinkBroken)
    else None
  }

  ghost predicate Named(forks: seq<Fork>, h: string) {
    exists k | 0 <= k < |forks| :: forks[k].sharedPrev == h
  }

  /** Some row claims `g` before any row claims `h`. */
  ghost predicate ClaimedBefore(rows: seq<Row>, g: string, h: string) {
    exists i :: 0 <= i < |rows| && rows[i].content.prev == Some(g) && forall m | 0 <= m <= i :: rows[m].content.prev != Some(h)
  }

  ghost predicate InClaimOrder(rows: seq<Row>, order: seq<string>) {
    forall j, k | 0 <= j < k < |order| :: ClaimedBefore(rows, order[j], order[k])
  }

  function SharedPrevs(forks: seq<Fork>): (r: seq<string>)
    ensures |r| == |forks| && forall k | 0 <= k < |r| :: r[k] == forks[k].sharedPrev
  {
    seq(|forks|, k requires 0 <= k < |forks| => forks[k].sharedPrev)
  }

  predicate OncePerPrev(forks: seq<Fork>) {
    forall j, k | 0 <= j < k < |forks| :: forks[j].sharedPrev != forks[k].sharedPrev
  }

  /** One entry per predecessor that two or more rows claim, first claimed first, listing all of them. */
  ghost predicate ForksExact(rows: seq<Row>, forks: seq<Fork>) {
    && (forall k | 0 <= k < |forks| ::
          |forks[k].claimants| > 1 && forks[k].claimants == Claims(rows, forks[k].sharedPrev))
    && (forall h | |Claims(rows, h)| > 1 :: Named(forks, h))
    && OncePerPrev(forks) && InClaimOrder(rows, SharedPrevs(forks))
  }

  /** How far the rows verify, what stops the walk, every gap passed and every fork. */
  ghost predicate ReportExact(rehash: Rehash, chained: seq<Row>, report: TenantReport) {
    var k := report.rowsVerified;
    && k <= |chained|
    && (forall i | 0 <= i < k :: BreakAt(rehash, chained, i).None?)
    && (k == |chained| ==> report.firstBreak.None? && report.formatCounts == FormatCounts(chained))
    && (k < |chained| ==>
          && BreakAt(rehash, chained, k).Some?
          && report.firstBreak == Some(BreakOf(chained[k], BreakAt(rehash, chained, k).value))
          && report.formatCounts == FormatCounts(chained[..k + 1]))
    && report.gapSpans == Gaps(chained[..k])
    && report.genesisSeq == (if chained == [] then None else chained[0].ChainSeq())
    && report.tipSeq == (if chained == [] then None else chained[|chained| - 1].ChainSeq())
    && ForksExact(chained, report.forks)
  }

  // ---------------------------------------------------------------- what the parts of a report list

  function ClaimsPrev(h: string): Row -> bool { (row: Row) => row.content.prev == Some(h) }

  /** One claimant for each of the rows, in order, by its position and trace. */
  predicate Names(claims: seq<Claimant>, claiming: seq<Row>) {
    && |claims| == |claiming|
    && forall k | 0 <= k < |claims| ::
         claims[k] == Claimant(claiming[k].content.chainSeq, Get(claiming[k].content.data, "trace_id"))
  }

  function ClaimingRows(rows: seq<Row>, h: string): seq<Row> {
    if rows == [] then []
    else
      var init, x := ClaimingRows(rows[..|rows| - 1], h), rows[|rows| - 1];
      if x.content.prev == Some(h) then init + [x] else init
  }

  /** The claimants of `h` are the rows whose prev_hash it is, in order. */
  lemma ClaimsExactly(rows: seq<Row>, h: string)
    ensures Selects(rows, ClaimsPrev(h), ClaimingRows(rows, h)) && Names(Claims(rows, h), ClaimingRows(rows, h))
  {
    ClaimingSelected(rows, h);
    ClaimingNamed(rows, h);
  }

  lemma {:induction false} ClaimingSelected(rows: seq<Row>, h: string)
    ensures Selects(rows, ClaimsPrev(h), ClaimingRows(rows, h))
  {
    if rows == [] {
      SelectsNone<Row>(ClaimsPrev(h));
    } else {
      ClaimingSelected(rows[..|rows| - 1], h);
      SelectsLast(rows, ClaimsPrev(h), ClaimingRows(rows[..|rows| - 1], h));
    }
  }

  lemma {:induction false} ClaimingNamed(rows: seq<Row>, h: string)
    ensures Names(Claims(rows, h), ClaimingRows(rows, h))
  {
    if rows != [] { ClaimingNamed(rows[..|rows| - 1], h); }
  }

  /** Each row but the last with the one after it. */
  function Adjacent(rows: seq<Row>): (r: seq<(Row, Row)>)
    requires rows != []
    ensures |r| == |rows| - 1 && forall i {:trigger r[i]} | 0 <= i < |r| :: r[i] == (rows[i], rows[i + 1])
  {
    seq(|rows| - 1, i requires 0 <= i < |rows| - 1 => (rows[i], rows[i + 1]))
  }

  predicate Skips(pair: (Row, Row)) { OrZero(pair.1.content.chainSeq) != OrZero(pair.0.content.chainSeq) + 1 }

  predicate Spans(gaps: seq<Gap>, pairs: seq<(Row, Row)>) {
    && |gaps| == |pairs|
    && forall k | 0 <= k < |gaps| :: gaps[k] == Gap(pairs[k].0.content.chainSeq, pairs[k].1.content.chainSeq)
  }

  function SkippingPairs(rows: seq<Row>): seq<(Row, Row)> {
    if |rows| < 2 then []
    else
      var init, pair := SkippingPairs(rows[..|rows| - 1]), (rows[|rows| - 2], rows[|rows| - 1]);
      if Skips(pair) then init + [pair] else init
  }

  /** The gaps are the adjacent rows whose positions are not consecutive, in order. */
  lemma {:induction false} GapsExactly(rows: seq<Row>)
    requires rows != []
    ensures Selects(Adjacent(rows), Skips, SkippingPairs(rows)) && Spans(Gaps(rows), SkippingPairs(rows))
  {
    PairsAreSelected(rows);
    PairsAreSpanned(rows);
  }

  lemma {:induction false} PairsAreSelected(rows: seq<Row>)
    requires rows != []
    ensures Selects(Adjacent(rows), Skips, SkippingPairs(rows))
  {
    var n := |rows| - 1;
    if n == 0 {
      SelectsNone<(Row, Row)>(Skips);
      assert Adjacent(rows) == [];
    } else {
      PairsAreSelected(rows[..n]);
      AdjacentLast(rows);
      SelectsNext(Adjacent(rows[..n]), Skips, SkippingPairs(rows[..n]), (rows[n - 1], rows[n]));
    }
  }

  lemma AdjacentLast(rows: seq<Row>)
    requires |rows| >= 2
    ensures var n := |rows| - 1; Adjacent(rows) == Adjacent(rows[..n]) + [(rows[n - 1], rows[n])]
  {
  }

  lemma {:induction false} PairsAreSpanned(rows: seq<Row>)
    ensures Spans(Gaps(rows), SkippingPairs(rows))
  {
    if |rows| >= 2 { PairsAreSpanned(rows[..|rows| - 1]); }
  }

  function RowsOfFormat(rows: seq<Row>, f: Option<int>): set<nat> { set i | 0 <= i < |rows| && rows[i].content.format == f }

  lemma {:induction false} RowsOfFormatNext(rows: seq<Row>, row: Row, f: Option<int>)
    ensures RowsOfFormat(rows + [row], f) ==
            if row.content.format == f then RowsOfFormat(rows, f) + {|rows|} else RowsOfFormat(rows, f)
  {
  }

  /** Every format met is counted, once for each of its rows. */
  lemma {:induction false} FormatCountsExactly(rows: seq<Row>, f: Option<int>)
    ensures f in FormatCounts(rows) <==> RowsOfFormat(rows, f) != {}
    ensures CountOf(FormatCounts(rows), f) == |RowsOfFormat(rows, f)|
  {
    if rows != [] {
      var n := |rows| - 1;
      FormatCountsExactly(rows[..n], f);
      RowsOfFormatNext(rows[..n], rows[n], f);
      assert rows == rows[..n] + [rows[n]];
    }
  }

  // ---------------------------------------------------------------- forks

  lemma {:induction false} ClaimsAppend(rows: seq<Row>, row: Row, h: string)
    ensures Claims(rows + [row], h) == if row.Prev() == Some(h) then Claims(rows, h) + [ClaimantOf(row)] else Claims(rows, h)
  {
    assert (rows + [row])[..|rows|] == rows;
  }

  /** `byPrev` groups the rows by prev_hash; `order` lists its keys once each. */
  ghost predicate Grouped(rows: seq<Row>, order: seq<string>, byPrev: map<string, seq<Claimant>>) {
    && (forall h :: h in order <==> h in byPrev)
    && (forall h :: Claims(rows, h) == if h in byPrev then byPrev[h] else [])
    && (forall h | h in byPrev :: byPrev[h] != [])
    && (forall j, k | 0 <= j < k < |order| :: order[j] != order[k])
  }

  lemma {:induction false} ClaimedBeforeStays(rows: seq<Row>, row: Row, g: string, h: string)
    requires ClaimedBefore(rows, g, h)
    ensures ClaimedBefore(rows + [row], g, h)
  {
    var i :| 0 <= i < |rows| && rows[i].content.prev == Some(g) && forall m | 0 <= m <= i :: rows[m].content.prev != Some(h);
    assert (rows + [row])[i].content.prev == Some(g);
  }

  lemma {:induction false} OrderStays(rows: seq<Row>, row: Row, order: seq<string>)
    requires InClaimOrder(rows, order)
    ensures InClaimOrder(rows + [row], order)
  {
    forall j, k | 0 <= j < k < |order| ensures ClaimedBefore(rows + [row], order[j], order[k]) {
      ClaimedBeforeStays(rows, row, order[j], order[k]);
    }
  }

  /** A predecessor nobody claims yet comes after all that are claimed. */
  lemma {:induction false} OrderGrows(rows: seq<Row>, row: Row, order: seq<string>, h: string)
    requires InClaimOrder(rows, order) && Claims(rows, h) == [] && forall g | g in order :: Claims(rows, g) != []
    ensures InClaimOrder(rows + [row], order + [h])
  {
    OrderStays(rows, row, order);
    forall j | 0 <= j < |order| ensures ClaimedBefore(rows + [row], order[j], h) {
      var i := OneClaim(rows, order[j]);
      forall m | 0 <= m < |rows| ensures rows[m].content.prev != Some(h) {
        if rows[m].content.prev == Some(h) { ClaimsCount(rows, h, m); }
      }
      assert (rows + [row])[i].content.prev == Some(order[j]);
    }
    forall j, k | 0 <= j < k < |order + [h]| ensures ClaimedBefore(rows + [row], (order + [h])[j], (order + [h])[k]) {
      if k < |order| { assert ClaimedBefore(rows + [row], order[j], order[k]); }
    }
  }

  lemma {:induction false} OrderNext(rows: seq<Row>, row: Row, order: seq<string>, byPrev: map<string, seq<Claimant>>)
    requires Grouped(rows, order, byPrev) && InClaimOrder(rows, order)
    ensures InClaimOrder(rows + [row], order)
    ensures row.Prev().Some? && row.Prev().value !in byPrev ==> InClaimOrder(rows + [row], order + [row.Prev().value])
  {
    OrderStays(rows, row, order);
    if row.Prev().Some? && row.Prev().value !in byPrev {
      assert Claims(rows, row.Prev().value) == [];
      forall g | g in order ensures Claims(rows, g) != [] { assert Claims(rows, g) == byPrev[g]; }
      OrderGrows(rows, row, order, row.Prev().value);
    }
  }

  lemma {:induction false} GroupedSkip(rows: seq<Row>, row: Row, order: seq<string>, byPrev: map<string, seq<Claimant>>)
    requires Grouped(rows, order, byPrev) && row.Prev().None?
    ensures Grouped(rows + [row], order, byPrev)
  {
    forall h ensures Claims(rows + [row], h) == if h in byPrev then byPrev[h] else [] {
      ClaimsAppend(rows, row, h);
    }
  }

  lemma {:induction false} GroupedNew(rows: seq<Row>, row: Row, order: seq<string>, byPrev: map<string, seq<Claimant>>)
    requires Grouped(rows, order, byPrev) && row.Prev().Some? && row.Prev().value !in byPrev
    ensures Grouped(rows + [row], order + [row.Prev().value], byPrev[row.Prev().value := [ClaimantOf(row)]])
  {
    var more := byPrev[row.Prev().value := [ClaimantOf(row)]];
    forall h ensures Claims(rows + [row], h) == if h in more then more[h] else [] {
      ClaimsAppend(rows, row, h);
    }
    assert row.Prev().value !in order;
  }

  lemma {:induction false} GroupedMore(rows: seq<Row>, row: Row, order: seq<string>, byPrev: map<string, seq<Claimant>>)
    requires Grouped(rows, order, byPrev) && row.Prev().Some? && row.Prev().value in byPrev
    ensures Grouped(rows + [row], order, byPrev[row.Prev().value := byPrev[row.Prev().value] + [ClaimantOf(row)]])
  {
    var more := byPrev[row.Prev().value := byPrev[row.Prev().value] + [ClaimantOf(row)]];
    forall h ensures Claims(rows + [row], h) == if h in more then more[h] else [] {
      ClaimsAppend(rows, row, h);
    }
  }

  method GroupByPrev(chained: seq<Row>) returns (order: seq<string>, byPrev: map<string, seq<Claimant>>)
    ensures Grouped(chained, order, byPrev) && InClaimOrder(chained, order)
  {
    order, byPrev := [], map[];
    for i := 0 to |chained|
      invariant Grouped(chained[..i], order, byPrev) && InClaimOrder(chained[..i], order)
    {
      var row := chained[i];
      assert chained[..i + 1] == chained[..i] + [row];
      OrderNext(chained[..i], row, order, byPrev);
      if row.Prev().None? {
        GroupedSkip(chained[..i], row, order, byPrev);
      } else {
        if row.Prev().value !in byPrev {
          GroupedNew(chained[..i], row, order, byPrev);
          order, byPrev := order + [row.Prev().value], byPrev[row.Prev().value := [ClaimantOf(row)]];
        } else {
          GroupedMore(chained[..i], row, order, byPrev);
          byPrev := byPrev[row.Prev().value := byPrev[row.Prev().value] + [ClaimantOf(row)]];
        }
      }
    }
    assert chained[..|chained|] == chained;
  }

  /** The groups of two or more, in order. */
  function SharedGroups(order: seq<string>, byPrev: map<string, seq<Claimant>>): (r: seq<Fork>)
    ensures forall k | 0 <= k < |r| ::
              r[k].sharedPrev in order && r[k].sharedPrev in byPrev && r[k].claimants == byPrev[r[k].sharedPrev]
              && |r[k].claimants| > 1
  {
    if order == [] then []
    else
      var init, h := SharedGroups(order[..|order| - 1], byPrev), order[|order| - 1];
      if h in byPrev && |byPrev[h]| > 1 then init + [Fork(h, byPrev[h])] else init
  }

  lemma {:induction false} SharedGroupsComplete(order: seq<string>, byPrev: map<string, seq<Claimant>>, h: string)
    requires h in order && h in byPrev && |byPrev[h]| > 1
    ensures Named(SharedGroups(order, byPrev), h)
  {
    var n, r := |order| - 1, SharedGroups(order, byPrev);
    if order[n] == h {
      assert r[|r| - 1].sharedPrev == h;
    } else {
      SharedGroupsComplete(order[..n], byPrev, h);
      var init := SharedGroups(order[..n], byPrev);
      var k :| 0 <= k < |init| && init[k].sharedPrev == h;
      assert r[k].sharedPrev == h;
    }
  }

  lemma {:induction false} SharedGroupsDistinct(order: seq<string>, byPrev: map<string, seq<Claimant>>)
    requires forall j, k | 0 <= j < k < |order| :: order[j] != order[k]
    ensures OncePerPrev(SharedGroups(order, byPrev))
  {
    if order != [] {
      var n := |order| - 1;
      SharedGroupsDistinct(order[..n], byPrev);
      var init, r := SharedGroups(order[..n], byPrev), SharedGroups(order, byPrev);
      forall j | 0 <= j < |init| ensures r[j] == init[j] && r[j].sharedPrev != order[n] {
        assert init[j].sharedPrev in order[..n];
      }
      forall j, k | 0 <= j < k < |r| ensures r[j].sharedPrev != r[k].sharedPrev {
        if k < |init| {
          assert r[j] == init[j] && r[k] == init[k];
        } else {
          assert r[k].sharedPrev == order[n] && r[j] == init[j];
        }
      }
    }
  }

  /** The groups picked come in the order of their predecessors. */
  lemma {:induction false} SharedGroupsAt(order: seq<string>, byPrev: map<string, seq<Claimant>>, j: nat, k: nat)
    requires j < k < |SharedGroups(order, byPrev)|
    ensures var r := SharedGroups(order, byPrev);
            exists i, m :: 0 <= i < m < |order| && order[i] == r[j].sharedPrev && order[m] == r[k].sharedPrev
  {
    var n, r := |order| - 1, SharedGroups(order, byPrev);
    var init := SharedGroups(order[..n], byPrev);
    assert r[j] == init[j];
    if k < |init| {
      SharedGroupsAt(order[..n], byPrev, j, k);
      var i, m :| 0 <= i < m < n && order[..n][i] == init[j].sharedPrev && order[..n][m] == init[k].sharedPrev;
      assert order[i] == r[j].sharedPrev && order[m] == r[k].sharedPrev;
    } else {
      assert init[j].sharedPrev in order[..n];
      var i :| 0 <= i < n && order[..n][i] == init[j].sharedPrev;
      assert order[i] == r[j].sharedPrev && order[n] == r[k].sharedPrev;
    }
  }

  lemma SharedGroupsOrdered(rows: seq<Row>, order: seq<string>, byPrev: map<string, seq<Claimant>>)
    requires InClaimOrder(rows, order)
    ensures InClaimOrder(rows, SharedPrevs(SharedGroups(order, byPrev)))
  {
    var r := SharedGroups(order, byPrev);
    forall j, k | 0 <= j < k < |r| ensures ClaimedBefore(rows, r[j].sharedPrev, r[k].sharedPrev) {
      SharedGroupsAt(order, byPrev, j, k);
    }
  }

  lemma SharedGroupsAreForks(rows: seq<Row>, order: seq<string>, byPrev: map<string, seq<Claimant>>)
    requires Grouped(rows, order, byPrev) && InClaimOrder(rows, order)
    ensures ForksExact(rows, SharedGroups(order, byPrev))
  {
    SharedGroupsDistinct(order, byPrev);
    SharedGroupsOrdered(rows, order, byPrev);
    forall h | |Claims(rows, h)| > 1 ensures Named(SharedGroups(order, byPrev), h) {
      SharedGroupsComplete(order, byPrev, h);
    }
  }

  lemma SharedNext(order: seq<string>, k: nat, byPrev: map<string, seq<Claimant>>)
    requires k < |order|
    ensures var init, h := SharedGroups(order[..k], byPrev), order[k];
            SharedGroups(order[..k + 1], byPrev) ==
            if h in byPrev && |byPrev[h]| > 1 then init + [Fork(h, byPrev[h])] else init
  {
    assert order[..k + 1][..k] == order[..k];
  }

  method FindForks(chained: seq<Row>) returns (forks: seq<Fork>)
    ensures ForksExact(chained, forks)
  {
    var order, byPrev := GroupByPrev(chained);
    forks := PickShared(order, byPrev);
    SharedGroupsAreForks(chained, order, byPrev);
  }

  /** The loop over the groups. */
  method PickShared(order: seq<string>, byPrev: map<string, seq<Claimant>>) returns (forks: seq<Fork>)
    requires forall h | h in order :: h in byPrev
    ensures forks == SharedGroups(order, byPrev)
  {
    forks := [];
    for k := 0 to |order|
      invariant forks == SharedGroups(order[..k], byPrev)
    {
      SharedNext(order, k, byPrev);
      assert order[k] in order;
      if |byPrev[order[k]]| > 1 {
        forks := forks + [Fork(order[k], byPrev[order[k]])];
      }
    }
    assert order[..|order|] == order;
  }

  // ---------------------------------------------------------------- verify_tenant

  /** The walk of verify_tenant: contents, links and gaps, up to the first break. */
  method Walk(rehash: Rehash, chained: seq<Row>)
    returns (verified: nat, counts: map<Option<int>, nat>, gaps: seq<Gap>, failure: Option<BreakKind>, typeError: bool)
    ensures verified <= |chained| && gaps == Gaps(chained[..verified])
    ensures forall i | 0 <= i < verified :: BreakAt(rehash, chained, i).None?
    ensures verified == |chained| ==> failure.None? && counts == FormatCounts(chained)
    ensures verified < |chained| ==>
              failure.Some? && failure == BreakAt(rehash, chained, verified) && counts == FormatCounts(chained[..verified + 1])
    ensures typeError <==> verified < |chained| && rehash(chained[verified].content) == Err(NotCanonicalisable)
  {
    verified, counts, gaps, failure, typeError := 0, map[], [], None, false;
    while verified < |chained|
      invariant verified <= |chained| && failure.None? && !typeError
      invariant forall i | 0 <= i < verified :: BreakAt(rehash, chained, i).None?
      invariant counts == FormatCounts(chained[..verified]) && gaps == Gaps(chained[..verified])
    {
      var row := chained[verified];
      assert chained[..verified + 1][..verified] == chained[..verified];
      counts := counts[row.content.format := CountOf(counts, row.content.format) + 1];
      var recomputed := rehash(row.content);
      if recomputed.Err? {
        failure, typeError := Some(UnknownFormatBreak), recomputed.error == NotCanonicalisable;
        return;
      }
      if row.hash != Some(recomputed.value) {
        failure := Some(ContentModified);
        return;
      }
      if verified > 0 {
        var previous := chained[verified - 1];
        if Contiguous(previous, row) {
          if row.Prev() != previous.hash {
            failure := Some(LinkBroken);
            return;
          }
        } else {
          gaps := gaps + [Gap(previous.ChainSeq(), row.ChainSeq())];
        }
      }
      verified := verified + 1;
    }
    assert chained[..|chained|] == chained;
  }

  /** The walk gets as far as a row whose values the canonicaliser refuses. */
  ghost predicate Refuses(rehash: Rehash, chained: seq<Row>) {
    exists k :: 0 <= k < |chained| && (forall i | 0 <= i < k :: BreakAt(rehash, chained, i).None?)
                && rehash(chained[k].content) == Err(NotCanonicalisable)
  }

  /** The answer for chained rows and a number of others: a TypeError, or an exact report, clean when the rows verify. */
  ghost predicate Answers(rehash: Rehash, chained: seq<Row>, others: int, result: Result<TenantReport, ChainError>) {
    && (result.Err? <==> Refuses(rehash, chained))
    && (result.Ok? ==>
          && ReportExact(rehash, chained, result.value) && result.value.unchainedRows == others
          && (result.value.Clean() <==> Verifies(rehash, chained)))
  }

  /** The answer for a tenant's rows: that for the ones in a chain, in the order read, counting the rest. */
  ghost predicate AnswersFor(rehash: Rehash, rows: seq<Row>, result: Result<TenantReport, ChainError>) {
    OfChained(rows, AnswersAbout(rehash, |rows|, result))
  }

  /** What holds of the rows in a chain, in the order read. */
  ghost predicate OfChained(rows: seq<Row>, p: seq<Row> -> bool) {
    exists chained :: Selects(rows, Hashed, chained) && p(chained)
  }

  ghost function AnswersAbout(rehash: Rehash, n: nat, result: Result<TenantReport, ChainError>): seq<Row> -> bool {
    chained => Answers(rehash, chained, n - |chained|, result)
  }

  /** Reads a tenant's rows, already ordered by chain_seq; a TypeError from the canonicaliser propagates. */
  method VerifyTenant(rehash: Rehash, rows: seq<Row>) returns (result: Result<TenantReport, ChainError>)
    ensures AnswersFor(rehash, rows, result)
  {
    var chained := Chained(rows);
    ChainedSelects(rows);
    result := VerifyChained(rehash, chained, |rows|);
    OnlyChoice(rows, chained, AnswersAbout(rehash, |rows|, result));
  }

  method VerifyChained(rehash: Rehash, chained: seq<Row>, total: nat) returns (result: Result<TenantReport, ChainError>)
    requires |chained| <= total
    ensures Answers(rehash, chained, total - |chained|, result)
  {
    var forks := FindForks(chained);
    var verified, counts, gaps, failure, typeError := Walk(rehash, chained);
    if typeError {
      RefusesAt(rehash, chained, verified);
      return Err(NotCanonicalisable);
    }
    RefusesAt(rehash, chained, verified);
    var firstBreak := if failure.None? then None else Some(BreakOf(chained[verified], failure.value));
    var genesis := if chained == [] then None else chained[0].ChainSeq();
    var tip := if chained == [] then None else chained[|chained| - 1].ChainSeq();
    var report := TenantReport(verified, counts, gaps, forks, firstBreak, genesis, tip, total - |chained|);
    ReportAnswers(rehash, chained, total, report);
    return Ok(report);
  }

  lemma ReportAnswers(rehash: Rehash, chained: seq<Row>, total: nat, report: TenantReport)
    requires |chained| <= total && report.unchainedRows == total - |chained|
    requires ReportExact(rehash, chained, report) && !Refuses(rehash, chained)
    ensures Answers(rehash, chained, total - |chained|, Ok(report))
  {
    CleanReportMeansVerified(rehash, chained, report);
  }

  /** The walk meets such a row exactly where it stops. */
  lemma RefusesAt(rehash: Rehash, chained: seq<Row>, n: nat)
    requires n <= |chained| && (forall i | 0 <= i < n :: BreakAt(rehash, chained, i).None?)
    requires n < |chained| ==> BreakAt(rehash, chained, n).Some?
    ensures Refuses(rehash, chained) <==> n < |chained| && rehash(chained[n].content) == Err(NotCanonicalisable)
  {
    if k :| 0 <= k < |chained| && (forall i | 0 <= i < k :: BreakAt(rehash, chained, i).None?)
            && rehash(chained[k].content) == Err(NotCanonicalisable)
    {
      assert BreakAt(rehash, chained, k).Some?;
    }
  }

  // ---------------------------------------------------------------- what a clean report means

  lemma {:induction false} ClaimsCount(rows: seq<Row>, h: string, i: nat)
    requires i < |rows| && rows[i].Prev() == Some(h)
    ensures |Claims(rows, h)| > 0
    ensures forall j | i < j < |rows| && rows[j].Prev() == Some(h) :: |Claims(rows, h)| > 1
  {
    var n := |rows| - 1;
    if i < n {
      ClaimsCount(rows[..n], h, i);
      forall j | i < j < |rows| && rows[j].Prev() == Some(h) ensures |Claims(rows, h)| > 1 {
        if j < n { assert rows[..n][j].Prev() == Some(h); }
      }
    }
  }

  lemma {:induction false} TwoClaims(rows: seq<Row>, h: string) returns (i: nat, j: nat)
    requires |Claims(rows, h)| > 1
    ensures i < j < |rows| && rows[i].Prev() == rows[j].Prev() == Some(h)
  {
    var n := |rows| - 1;
    if |Claims(rows[..n], h)| > 1 {
      i, j := TwoClaims(rows[..n], h);
    } else {
      i := OneClaim(rows[..n], h);
      j := n;
    }
  }

  lemma {:induction false} OneClaim(rows: seq<Row>, h: string) returns (i: nat)
    requires |Claims(rows, h)| > 0
    ensures i < |rows| && rows[i].Prev() == Some(h)
  {
    var n := |rows| - 1;
    if rows[n].Prev() == Some(h) { i := n; } else { i := OneClaim(rows[..n], h); }
  }

  lemma ForkFree(rows: seq<Row>, forks: seq<Fork>)
    requires ForksExact(rows, forks)
    ensures forks == [] <==> NoFork(rows)
  {
    if forks == [] {
      forall i, j | 0 <= i < j < |rows| && rows[i].Prev().Some? ensures rows[i].Prev() != rows[j].Prev() {
        ClaimsCount(rows, rows[i].Prev().value, i);
      }
    } else {
      var i, j := TwoClaims(rows, forks[0].sharedPrev);
      assert !NoFork(rows);
    }
  }

  lemma BreakFree(rehash: Rehash, rows: seq<Row>)
    ensures (forall i | 0 <= i < |rows| :: BreakAt(rehash, rows, i).None?) <==> ContentsOk(rehash, rows) && AllLinked(rows)
  {
    if forall i | 0 <= i < |rows| :: BreakAt(rehash, rows, i).None? {
      forall i | 0 <= i < |rows| ensures ContentOk(rehash, rows[i]) { assert BreakAt(rehash, rows, i).None?; }
      forall i | 0 < i < |rows| ensures Linked(rows[i - 1], rows[i]) { assert BreakAt(rehash, rows, i).None?; }
    }
  }

  /** `ok` is exactly "no break and no fork", over the chained rows, gaps permitted. */
  lemma CleanReportMeansVerified(rehash: Rehash, chained: seq<Row>, report: TenantReport)
    requires ReportExact(rehash, chained, report)
    ensures report.Clean() <==> Verifies(rehash, chained)
  {
    ForkFree(chained, report.forks);
    BreakFree(rehash, chained);
  }

  lemma ChoicePassesOver(a: seq<Row>, row: Row, b: seq<Row>, chained: seq<Row>)
    requires row.hash.None?
    ensures Selects(a + b, Hashed, chained) <==> Selects(a + [row] + b, Hashed, chained)
  {
    ChainedSkips(a, row, b);
    ChainedSelects(a + b);
    ChainedSelects(a + [row] + b);
    if Selects(a + b, Hashed, chained) { SelectsOnce(a + b, Hashed, chained, Chained(a + b)); }
    if Selects(a + [row] + b, Hashed, chained) { SelectsOnce(a + [row] + b, Hashed, chained, Chained(a + b)); }
  }

  /** The same report, counting one more row outside. */
  function OneMoreOutside(report: TenantReport): TenantReport { report.(unchainedRows := report.unchainedRows + 1) }

  /** When every row is in a chain the answer is about the rows as they were read. */
  lemma AllHashedAnswers(rehash: Rehash, rows: seq<Row>, result: Result<TenantReport, ChainError>)
    requires forall i | 0 <= i < |rows| :: rows[i].hash.Some?
    ensures AnswersFor(rehash, rows, result) <==> Answers(rehash, rows, 0, result)
  {
    assert Selects(rows, Hashed, rows) by {
      AllChained(rows);
      ChainedSelects(rows);
    }
    OnlyChoice(rows, rows, AnswersAbout(rehash, |rows|, result));
    NoneOutside(rehash, rows, result);
  }

  lemma NoneOutside(rehash: Rehash, rows: seq<Row>, result: Result<TenantReport, ChainError>)
    ensures AnswersAbout(rehash, |rows|, result)(rows) <==> Answers(rehash, rows, 0, result)
  {
  }

  lemma OnlyChoice(rows: seq<Row>, chained: seq<Row>, p: seq<Row> -> bool)
    requires Selects(rows, Hashed, chained)
    ensures OfChained(rows, p) <==> p(chained)
  {
    forall q | Selects(rows, Hashed, q) ensures q == chained { SelectsOnce(rows, Hashed, q, chained); }
  }

  /** The same choices with equivalent properties. */
  lemma SameChoice(s: seq<Row>, t: seq<Row>, p: seq<Row> -> bool, q: seq<Row> -> bool)
    requires forall chained :: Selects(s, Hashed, chained) <==> Selects(t, Hashed, chained)
    requires forall chained :: p(chained) <==> q(chained)
    ensures OfChained(s, p) <==> OfChained(t, q)
  {
  }

  lemma CountIsApart(rehash: Rehash, chained: seq<Row>, n: int, report: TenantReport)
    ensures Answers(rehash, chained, n, Ok(report)) <==> Answers(rehash, chained, n + 1, Ok(OneMoreOutside(report)))
  {
  }

  /** One more row outside every chain, wherever it is read, adds one to the rows outside and changes nothing else. */
  lemma UnchainedRowOnlyCounts(rehash: Rehash, a: seq<Row>, row: Row, b: seq<Row>, report: TenantReport)
    requires row.hash.None?
    ensures AnswersFor(rehash, a + b, Ok(report)) <==> AnswersFor(rehash, a + [row] + b, Ok(OneMoreOutside(report)))
  {
    var s, t := a + b, a + [row] + b;
    var p := AnswersAbout(rehash, |s|, Ok(report));
    var q := AnswersAbout(rehash, |t|, Ok(OneMoreOutside(report)));
    forall chained ensures p(chained) <==> q(chained) {
      CountIsApart(rehash, chained, |s| - |chained|, report);
    }
    forall chained ensures Selects(s, Hashed, chained) <==> Selects(t, Hashed, chained) {
      ChoicePassesOver(a, row, b, chained);
    }
    SameChoice(s, t, p, q);
  }
}
