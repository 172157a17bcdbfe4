/**
 Aggregating per-market claim files by mint (cli/src/bin/instructions/process_aggregate_if_csvs.rs):
 the loops over ordered maps, what they compute, and exactly when the result depends on input order.
 */
module Aggregate {
  import opened Bytes
  import opened Sums
  import opened Ordering

  /** Whether a string is a public key, and which. */
  type KeyParser = Text -> Option<Pubkey>

  datatype CsvEntry = CsvEntry(pubkey: Text, amount: u64, locked: Option<u64>)
  {
    function Locked(): u64 {
      if locked.Some? then locked.value else 0
    }
  }

  datatype Market = Market(index: u64, symbol: Text, mint: Text)

  datatype Input = Input(market: Market, entries: seq<CsvEntry>)

  datatype MergedMint = MergedMint(mint: Text, symbol: Text, index: u64, sources: seq<u64>, entries: seq<CsvEntry>)

  // ----- What aggregation means -----

  datatype Row = Row(mint: Text, entry: CsvEntry)

  function TagWith(mint: Text): CsvEntry -> seq<Row> {
    (e: CsvEntry) => [Row(mint, e)]
  }

  function RowsIn(x: Input): seq<Row> {
    FlatMap(x.entries, TagWith(x.market.mint))
  }

  function MarketIn(x: Input): seq<Market> {
    [x.market]
  }

  /** All rows of all files, tagged with their mint. */
  function Rows(inputs: seq<Input>): seq<Row> {
    FlatMap(inputs, RowsIn)
  }

  function Markets(inputs: seq<Input>): seq<Market> {
    FlatMap(inputs, MarketIn)
  }

  function AmountFor(mint: Text, key: Text): Row -> int {
    (r: Row) => if r.mint == mint && r.entry.pubkey == key then r.entry.amount else 0
  }

  function LockedFor(mint: Text, key: Text): Row -> int {
    (r: Row) => if r.mint == mint && r.entry.pubkey == key then r.entry.Locked() else 0
  }

  /** What all rows give one claimant on one mint. */
  function MintAmount(rows: seq<Row>, mint: Text, key: Text): int {
    SumSeq(rows, AmountFor(mint, key))
  }

  function MintLocked(rows: seq<Row>, mint: Text, key: Text): int {
    SumSeq(rows, LockedFor(mint, key))
  }

  function Mints(ms: seq<Market>): set<Text> {
    if ms == [] then {} else Mints(ms[..|ms| - 1]) + {ms[|ms| - 1].mint}
  }

  /** The claimants with a row on a mint. */
  function KeysOn(rows: seq<Row>, mint: Text): set<Text> {
    if rows == [] then {}
    else
      var r := rows[|rows| - 1];
      KeysOn(rows[..|rows| - 1], mint) + if r.mint == mint then {r.entry.pubkey} else {}
  }

  /** The lowest-index market of a mint; the first of several with that index. */
  function Representative(ms: seq<Market>, mint: Text): Option<Market> {
    if ms == [] then None
    else
      var before, m := Representative(ms[..|ms| - 1], mint), ms[|ms| - 1];
      if m.mint != mint then before
      else if before.None? || m.index < before.value.index then Some(m)
      else before
  }

  function IndexIf(mint: Text): Market -> seq<u64> {
    (m: Market) => if m.mint == mint then [m.index] else []
  }

  function IndicesOf(ms: seq<Market>, mint: Text): seq<u64> {
    FlatMap(ms, IndexIf(mint))
  }

  predicate AllParse(parse: KeyParser, rows: seq<Row>) {
    forall i :: 0 <= i < |rows| ==> parse(rows[i].entry.pubkey).Some?
  }

  /** Every key parses and no claimant's sum overflows. */
  ghost predicate Clean(parse: KeyParser, rows: seq<Row>) {
    && AllParse(parse, rows)
    && forall mint, key :: MintAmount(rows, mint, key) <= U64_MAX && MintLocked(rows, mint, key) <= U64_MAX
  }

  /** The row holds exactly the claimant's sums. */
  ghost predicate IsSummed(e: CsvEntry, rows: seq<Row>, mint: Text, key: Text) {
    && e.pubkey == key
    && e.amount == MintAmount(rows, mint, key)
    && e.locked.Some? && e.locked.value == MintLocked(rows, mint, key)
  }

  /** The merged file of one mint: one summed row per claimant in key order, labelled by the lowest-index market. */
  ghost predicate IsMerged(g: MergedMint, ms: seq<Market>, rows: seq<Row>, mint: Text) {
    && g.mint == mint
    && Representative(ms, mint) == Some(Market(g.index, g.symbol, mint))
    && g.sources == SortIndices(IndicesOf(ms, mint))
    && |g.entries| == |SortedKeys(KeysOn(rows, mint))|
    && forall i :: 0 <= i < |g.entries| ==> IsSummed(g.entries[i], rows, mint, SortedKeys(KeysOn(rows, mint))[i])
  }

  /** The whole output: one merged file per mint, in mint order. */
  ghost predicate IsAggregate(out: seq<MergedMint>, inputs: seq<Input>) {
    && |out| == |SortedKeys(Mints(Markets(inputs)))|
    && forall i :: 0 <= i < |out| ==>
         IsMerged(out[i], Markets(inputs), Rows(inputs), SortedKeys(Mints(Markets(inputs)))[i])
  }

  // ----- Facts about the definitions -----

  lemma {:induction false} MintsMember(ms: seq<Market>, mint: Text)
    ensures mint in Mints(ms) <==> exists i :: 0 <= i < |ms| && ms[i].mint == mint
  {
    if ms != [] {
      var init := ms[..|ms| - 1];
      MintsMember(init, mint);
      if i :| 0 <= i < |init| && init[i].mint == mint {
        assert ms[i].mint == mint;
      }
      if i :| 0 <= i < |ms| && ms[i].mint == mint && i < |init| {
        assert init[i].mint == mint;
      }
    }
  }

  lemma {:induction false} KeysOnMember(rows: seq<Row>, mint: Text, key: Text)
    ensures key in KeysOn(rows, mint) <==>
        exists i :: 0 <= i < |rows| && rows[i].mint == mint && rows[i].entry.pubkey == key
  {
    if rows != [] {
      var init := rows[..|rows| - 1];
      KeysOnMember(init, mint, key);
      if i :| 0 <= i < |init| && init[i].mint == mint && init[i].entry.pubkey == key {
        assert rows[i].mint == mint;
      }
      if i :| 0 <= i < |rows| && rows[i].mint == mint && rows[i].entry.pubkey == key && i < |init| {
        assert init[i].mint == mint;
      }
    }
  }

  lemma SumSeqSnoc<T>(s: seq<T>, x: T, f: T -> int)
    ensures SumSeq(s + [x], f) == SumSeq(s, f) + f(x)
  {
    assert (s + [x])[..|s|] == s;
  }

  lemma FlatMapSnoc<S, T>(s: seq<S>, x: S, f: S -> seq<T>)
    ensures FlatMap(s + [x], f) == FlatMap(s, f) + f(x)
  {
    assert (s + [x])[..|s|] == s;
  }

  lemma SumsGrow(rows: seq<Row>, more: seq<Row>, mint: Text, key: Text)
    ensures 0 <= MintAmount(rows, mint, key) <= MintAmount(rows + more, mint, key)
    ensures 0 <= MintLocked(rows, mint, key) <= MintLocked(rows + more, mint, key)
  {
    var f, g := AmountFor(mint, key), LockedFor(mint, key);
    SumSeqConcat(rows, more, f);
    SumSeqConcat(rows, more, g);
    SumSeqNonNegative(rows, f);
    SumSeqNonNegative(more, f);
    SumSeqNonNegative(rows, g);
    SumSeqNonNegative(more, g);
  }

  lemma {:induction false} AbsentSumsToZero(rows: seq<Row>, mint: Text, key: Text)
    requires key !in KeysOn(rows, mint)
    ensures MintAmount(rows, mint, key) == MintLocked(rows, mint, key) == 0
  {
    if rows != [] {
      AbsentSumsToZero(rows[..|rows| - 1], mint, key);
    }
  }

  lemma OneMoreMarket(inputs: seq<Input>, m: Market)
    ensures Rows(inputs + [Input(m, [])]) == Rows(inputs)
    ensures Markets(inputs + [Input(m, [])]) == Markets(inputs) + [m]
  {
    FlatMapSnoc(inputs, Input(m, []), RowsIn);
    FlatMapSnoc(inputs, Input(m, []), MarketIn);
  }

  lemma OneMoreRow(inputs: seq<Input>, m: Market, es: seq<CsvEntry>, e: CsvEntry)
    ensures Rows(inputs + [Input(m, es + [e])]) == Rows(inputs + [Input(m, es)]) + [Row(m.mint, e)]
    ensures Markets(inputs + [Input(m, es + [e])]) == Markets(inputs + [Input(m, es)])
  {
    FlatMapSnoc(inputs, Input(m, es), RowsIn);
    FlatMapSnoc(inputs, Input(m, es + [e]), RowsIn);
    FlatMapSnoc(inputs, Input(m, es), MarketIn);
    FlatMapSnoc(inputs, Input(m, es + [e]), MarketIn);
    FlatMapSnoc(es, e, TagWith(m.mint));
  }

  lemma RestOfRows(inputs: seq<Input>, m: Market, entries: seq<CsvEntry>, k: nat)
    requires k <= |entries|
    ensures Rows(inputs + [Input(m, entries)])
         == Rows(inputs + [Input(m, entries[..k])]) + FlatMap(entries[k..], TagWith(m.mint))
  {
    FlatMapSnoc(inputs, Input(m, entries), RowsIn);
    FlatMapSnoc(inputs, Input(m, entries[..k]), RowsIn);
    assert entries == entries[..k] + entries[k..];
    FlatMapConcat(entries[..k], entries[k..], TagWith(m.mint));
  }

  // ----- The program -----

  datatype Tally = Tally(amount: u64, locked: u64)

  datatype Group = Group(rep: Market, sums: map<Text, Tally>)

  ghost predicate TallyOf(t: Tally, rows: seq<Row>, mint: Text, key: Text) {
    t.amount == MintAmount(rows, mint, key) && t.locked == MintLocked(rows, mint, key)
  }

  ghost predicate GroupOf(g: Group, ms: seq<Market>, rows: seq<Row>, mint: Text) {
    && Representative(ms, mint) == Some(g.rep)
    && g.sums.Keys == KeysOn(rows, mint)
    && forall key :: key in g.sums ==> TallyOf(g.sums[key], rows, mint, key)
  }

  /** What the accumulating loops know after some input. */
  ghost predicate Accumulated(parse: KeyParser, groups: map<Text, Group>, ms: seq<Market>, rows: seq<Row>) {
    && groups.Keys == Mints(ms)
    && AllParse(parse, rows)
    && forall mint :: mint in groups ==> GroupOf(groups[mint], ms, rows, mint)
  }

  ghost predicate AccumulatedFrom(parse: KeyParser, groups: map<Text, Group>, inputs: seq<Input>) {
    Accumulated(parse, groups, Markets(inputs), Rows(inputs)) && RowsHaveMarkets(Rows(inputs), Markets(inputs))
  }

  /** A row's mint is the mint of some market. */
  ghost predicate RowsHaveMarkets(rows: seq<Row>, ms: seq<Market>) {
    forall i :: 0 <= i < |rows| ==> rows[i].mint in Mints(ms)
  }

  /** The group entry for a market: made when its mint is new, its label replaced when the index is lower. */
  function Opened(groups: map<Text, Group>, m: Market): Group {
    if m.mint !in groups then Group(m, map[])
    else if m.index < groups[m.mint].rep.index then groups[m.mint].(rep := m)
    else groups[m.mint]
  }

  lemma {:induction false} NoMarketNoRep(ms: seq<Market>, mint: Text)
    requires mint !in Mints(ms)
    ensures Representative(ms, mint) == None
  {
    if ms != [] {
      NoMarketNoRep(ms[..|ms| - 1], mint);
    }
  }

  lemma NoMarketNoKeys(rows: seq<Row>, ms: seq<Market>, mint: Text)
    requires RowsHaveMarkets(rows, ms) && mint !in Mints(ms)
    ensures KeysOn(rows, mint) == {}
  {
    forall key ensures key !in KeysOn(rows, mint) {
      KeysOnMember(rows, mint, key);
    }
  }

  lemma OpenGroups(parse: KeyParser, groups: map<Text, Group>, ms: seq<Market>, rows: seq<Row>, m: Market)
    requires Accumulated(parse, groups, ms, rows) && RowsHaveMarkets(rows, ms)
    ensures Accumulated(parse, groups[m.mint := Opened(groups, m)], ms + [m], rows)
    ensures RowsHaveMarkets(rows, ms + [m])
  {
    assert (ms + [m])[..|ms|] == ms;
    if m.mint !in groups {
      NoMarketNoRep(ms, m.mint);
      NoMarketNoKeys(rows, ms, m.mint);
    }
  }

  /** What the running sums of a key become with one more row. */
  function Added(sums: map<Text, Tally>, e: CsvEntry): (int, int) {
    var acc := if e.pubkey in sums then sums[e.pubkey] else Tally(0, 0);
    (acc.amount + e.amount, acc.locked + e.Locked())
  }

  lemma AddedIsSum(g: Group, ms: seq<Market>, rows: seq<Row>, mint: Text, e: CsvEntry)
    requires GroupOf(g, ms, rows, mint)
    ensures Added(g.sums, e) ==
        (MintAmount(rows + [Row(mint, e)], mint, e.pubkey), MintLocked(rows + [Row(mint, e)], mint, e.pubkey))
  {
    SumSeqSnoc(rows, Row(mint, e), AmountFor(mint, e.pubkey));
    SumSeqSnoc(rows, Row(mint, e), LockedFor(mint, e.pubkey));
    if e.pubkey !in g.sums {
      AbsentSumsToZero(rows, mint, e.pubkey);
    }
  }

  lemma SumsOfOthers(rows: seq<Row>, r: Row, mint: Text, key: Text)
    requires r.mint != mint || r.entry.pubkey != key
    ensures MintAmount(rows + [r], mint, key) == MintAmount(rows, mint, key)
    ensures MintLocked(rows + [r], mint, key) == MintLocked(rows, mint, key)
  {
    SumSeqSnoc(rows, r, AmountFor(mint, key));
    SumSeqSnoc(rows, r, LockedFor(mint, key));
  }

  lemma AddToGroup(g: Group, ms: seq<Market>, rows: seq<Row>, mint: Text, e: CsvEntry, a: u64, l: u64)
    requires GroupOf(g, ms, rows, mint) && Added(g.sums, e) == (a, l)
    ensures GroupOf(g.(sums := g.sums[e.pubkey := Tally(a, l)]), ms, rows + [Row(mint, e)], mint)
  {
    var r := Row(mint, e);
    assert (rows + [r])[..|rows|] == rows;
    AddedIsSum(g, ms, rows, mint, e);
    forall key | key in g.sums && key != e.pubkey ensures TallyOf(g.sums[key], rows + [r], mint, key) {
      SumsOfOthers(rows, r, mint, key);
    }
  }

  lemma AddToOtherGroup(g: Group, ms: seq<Market>, rows: seq<Row>, mint: Text, r: Row)
    requires GroupOf(g, ms, rows, mint) && r.mint != mint
    ensures GroupOf(g, ms, rows + [r], mint)
  {
    assert (rows + [r])[..|rows|] == rows;
    forall key | key in g.sums ensures TallyOf(g.sums[key], rows + [r], mint, key) {
      SumsOfOthers(rows, r, mint, key);
    }
  }

  lemma RowsSnoc(parse: KeyParser, rows: seq<Row>, r: Row, ms: seq<Market>)
    requires AllParse(parse, rows) && RowsHaveMarkets(rows, ms)
    requires parse(r.entry.pubkey).Some? && r.mint in Mints(ms)
    ensures AllParse(parse, rows + [r]) && RowsHaveMarkets(rows + [r], ms)
  {
  }

  lemma AddRow(parse: KeyParser, groups: map<Text, Group>, ms: seq<Market>, rows: seq<Row>, mint: Text, e: CsvEntry,
               g: Group)
    requires Accumulated(parse, groups, ms, rows) && mint in groups && RowsHaveMarkets(rows, ms)
    requires parse(e.pubkey).Some? && GroupOf(g, ms, rows + [Row(mint, e)], mint)
    ensures Accumulated(parse, groups[mint := g], ms, rows + [Row(mint, e)])
    ensures RowsHaveMarkets(rows + [Row(mint, e)], ms)
  {
    var r := Row(mint, e);
    RowsSnoc(parse, rows, r, ms);
    forall other | other in groups && other != mint ensures GroupOf(groups[other], ms, rows + [r], other) {
      AddToOtherGroup(groups[other], ms, rows, other, r);
    }
  }

  lemma AddEntry(parse: KeyParser, groups: map<Text, Group>, inputs: seq<Input>, m: Market, es: seq<CsvEntry>,
                 e: CsvEntry, a: u64, l: u64)
    requires AccumulatedFrom(parse, groups, inputs + [Input(m, es)]) && m.mint in groups
    requires parse(e.pubkey).Some? && Added(groups[m.mint].sums, e) == (a, l)
    ensures var g := groups[m.mint];
      AccumulatedFrom(parse, groups[m.mint := g.(sums := g.sums[e.pubkey := Tally(a, l)])],
                      inputs + [Input(m, es + [e])])
  {
    var g := groups[m.mint];
    var ms, rows := Markets(inputs + [Input(m, es)]), Rows(inputs + [Input(m, es)]);
    OneMoreRow(inputs, m, es, e);
    AddToGroup(g, ms, rows, m.mint, e, a, l);
    AddRow(parse, groups, ms, rows, m.mint, e, g.(sums := g.sums[e.pubkey := Tally(a, l)]));
  }

  /** An entry that the inner loop refuses spoils the whole file. */
  lemma RefusedIsUnclean(parse: KeyParser, groups: map<Text, Group>, inputs: seq<Input>, m: Market,
                         entries: seq<CsvEntry>, j: nat)
    requires j < |entries| && AccumulatedFrom(parse, groups, inputs + [Input(m, entries[..j])]) && m.mint in groups
    requires parse(entries[j].pubkey).None?
          || Added(groups[m.mint].sums, entries[j]).0 > U64_MAX || Added(groups[m.mint].sums, entries[j]).1 > U64_MAX
    ensures !Clean(parse, Rows(inputs + [Input(m, entries)]))
  {
    var e, sofar := entries[j], inputs + [Input(m, entries[..j])];
    var more := FlatMap(entries[j + 1..], TagWith(m.mint));
    assert entries[..j + 1] == entries[..j] + [e];
    OneMoreRow(inputs, m, entries[..j], e);
    RestOfRows(inputs, m, entries, j + 1);
    if parse(e.pubkey).None? {
      BadKeyIsUnclean(parse, Rows(sofar), Row(m.mint, e), more);
    } else {
      AddedIsSum(groups[m.mint], Markets(sofar), Rows(sofar), m.mint, e);
      OverflowIsUnclean(parse, Rows(sofar) + [Row(m.mint, e)], more, m.mint, e.pubkey);
    }
  }

  lemma OverflowIsUnclean(parse: KeyParser, rows: seq<Row>, more: seq<Row>, mint: Text, key: Text)
    requires MintAmount(rows, mint, key) > U64_MAX || MintLocked(rows, mint, key) > U64_MAX
    ensures !Clean(parse, rows + more)
  {
    SumsGrow(rows, more, mint, key);
    assert MintAmount(rows + more, mint, key) > U64_MAX || MintLocked(rows + more, mint, key) > U64_MAX;
  }

  lemma BadKeyIsUnclean(parse: KeyParser, rows: seq<Row>, r: Row, more: seq<Row>)
    requires parse(r.entry.pubkey).None?
    ensures !Clean(parse, rows + [r] + more)
  {
    assert (rows + [r] + more)[|rows|] == r;
  }

  /** The inner loop: add one file's rows; None is the error return. */
  method AddEntries(parse: KeyParser, before: map<Text, Group>, ghost inputs: seq<Input>, m: Market,
                    entries: seq<CsvEntry>)
    returns (r: Option<map<Text, Group>>)
    requires AccumulatedFrom(parse, before, inputs + [Input(m, [])]) && m.mint in before
    ensures r.Some? ==> AccumulatedFrom(parse, r.value, inputs + [Input(m, entries)])
    ensures r.None? ==> !Clean(parse, Rows(inputs + [Input(m, entries)]))
  {
    var groups := before;
    assert entries[..0] == [];
    for j := 0 to |entries|
      invariant m.mint in groups && AccumulatedFrom(parse, groups, inputs + [Input(m, entries[..j])])
    {
      var e := entries[j];
      assert entries[..j + 1] == entries[..j] + [e];
      var g := groups[m.mint];
      var sums := Added(g.sums, e);
      if parse(e.pubkey).None? || sums.0 > U64_MAX || sums.1 > U64_MAX {
        RefusedIsUnclean(parse, groups, inputs, m, entries, j);
        return None;
      }
      AddEntry(parse, groups, inputs, m, entries[..j], e, sums.0, sums.1);
      groups := groups[m.mint := g.(sums := g.sums[e.pubkey := Tally(sums.0, sums.1)])];
    }
    assert entries[..|entries|] == entries;
    r := Some(groups);
  }

  lemma AccumulatedIsClean(parse: KeyParser, groups: map<Text, Group>, ms: seq<Market>, rows: seq<Row>)
    requires Accumulated(parse, groups, ms, rows) && RowsHaveMarkets(rows, ms)
    ensures Clean(parse, rows)
  {
    forall mint, key ensures MintAmount(rows, mint, key) <= U64_MAX && MintLocked(rows, mint, key) <= U64_MAX {
      if mint in groups && key in groups[mint].sums {
        assert TallyOf(groups[mint].sums[key], rows, mint, key);
      } else {
        if mint !in groups {
          NoMarketNoKeys(rows, ms, mint);
        }
        AbsentSumsToZero(rows, mint, key);
      }
    }
  }

  /** A prefix of clean rows is clean. */
  lemma CleanPrefix(parse: KeyParser, rows: seq<Row>, more: seq<Row>)
    requires Clean(parse, rows + more)
    ensures Clean(parse, rows)
  {
    assert forall i :: 0 <= i < |rows| ==> (rows + more)[i] == rows[i];
    forall mint, key ensures MintAmount(rows, mint, key) <= U64_MAX && MintLocked(rows, mint, key) <= U64_MAX {
      SumsGrow(rows, more, mint, key);
      assert MintAmount(rows + more, mint, key) <= U64_MAX;
    }
  }

  /** The second loop's body: one group in sorted order. */
  method Emit(mint: Text, g: Group, markets: seq<Market>, ghost rows: seq<Row>) returns (r: MergedMint)
    requires GroupOf(g, markets, rows, mint)
    ensures IsMerged(r, markets, rows, mint)
  {
    RepresentativeIsLowest(markets, mint);
    var keys := SortedKeys(g.sums.Keys);
    var entries: seq<CsvEntry> := [];
    for i := 0 to |keys|
      invariant |entries| == i
      invariant forall j :: 0 <= j < i ==> IsSummed(entries[j], rows, mint, keys[j])
    {
      assert keys[i] in g.sums;
      var t := g.sums[keys[i]];
      assert TallyOf(t, rows, mint, keys[i]);
      entries := entries + [CsvEntry(keys[i], t.amount, Some(t.locked))];
    }
    r := MergedMint(mint, g.rep.symbol, g.rep.index, SortIndices(IndicesOf(markets, mint)), entries);
  }

  /** The first loop: group by mint; None is the error return. */
  method Accumulate(parse: KeyParser, inputs: seq<Input>) returns (r: Option<map<Text, Group>>)
    ensures r.Some? ==> AccumulatedFrom(parse, r.value, inputs)
    ensures r.None? ==> !Clean(parse, Rows(inputs))
  {
    var groups: map<Text, Group> := map[];
    assert inputs[..0] == [];
    for i := 0 to |inputs|
      invariant AccumulatedFrom(parse, groups, inputs[..i])
    {
      var m, entries := inputs[i].market, inputs[i].entries;
      assert inputs[..i + 1] == inputs[..i] + [Input(m, entries)];
      OpenMarket(parse, groups, inputs[..i], m);
      groups := groups[m.mint := Opened(groups, m)];
      var added := AddEntries(parse, groups, inputs[..i], m, entries);
      if added.None? {
        UncleanPrefix(parse, inputs, i + 1);
        return None;
      }
      groups := added.value;
    }
    assert inputs[..|inputs|] == inputs;
    r := Some(groups);
  }

  lemma OpenMarket(parse: KeyParser, groups: map<Text, Group>, inputs: seq<Input>, m: Market)
    requires AccumulatedFrom(parse, groups, inputs)
    ensures AccumulatedFrom(parse, groups[m.mint := Opened(groups, m)], inputs + [Input(m, [])])
  {
    OneMoreMarket(inputs, m);
    OpenGroups(parse, groups, Markets(inputs), Rows(inputs), m);
  }

  lemma UncleanPrefix(parse: KeyParser, inputs: seq<Input>, i: nat)
    requires i <= |inputs| && !Clean(parse, Rows(inputs[..i]))
    ensures !Clean(parse, Rows(inputs))
  {
    assert inputs == inputs[..i] + inputs[i..];
    FlatMapConcat(inputs[..i], inputs[i..], RowsIn);
    if Clean(parse, Rows(inputs)) {
      CleanPrefix(parse, Rows(inputs[..i]), Rows(inputs[i..]));
    }
  }

  /** Aggregation succeeds exactly on clean input, and then yields the merged files. */
  method AggregateEntries(parse: KeyParser, inputs: seq<Input>) returns (r: Option<seq<MergedMint>>)
    ensures r.Some? <==> Clean(parse, Rows(inputs))
    ensures r.Some? ==> IsAggregate(r.value, inputs)
  {
    var groups := Accumulate(parse, inputs);
    if groups.None? {
      return None;
    }
    AccumulatedIsClean(parse, groups.value, Markets(inputs), Rows(inputs));
    var mints := SortedKeys(groups.value.Keys);
    var merged: seq<MergedMint> := [];
    for i := 0 to |mints|
      invariant |merged| == i
      invariant forall j :: 0 <= j < i ==> IsMerged(merged[j], Markets(inputs), Rows(inputs), mints[j])
    {
      assert mints[i] in groups.value;
      var g := Emit(mints[i], groups.value[mints[i]], Markets(inputs), Rows(inputs));
      merged := merged + [g];
    }
    r := Some(merged);
  }

  // ----- What the output says -----

  lemma {:induction false} RepresentativeIsLowest(ms: seq<Market>, mint: Text)
    ensures Representative(ms, mint).None? <==> mint !in Mints(ms)
    ensures Representative(ms, mint).Some? ==>
      var r := Representative(ms, mint).value;
      r in ms && r.mint == mint && forall m :: m in ms && m.mint == mint ==> r.index <= m.index
  {
    if ms != [] {
      var init, m := ms[..|ms| - 1], ms[|ms| - 1];
      assert ms == init + [m];
      MintsMember(init, mint);
      RepresentativeIsLowest(init, mint);
    }
  }

  /** Output mints, and the claimants of each, are in strictly ascending order: sorted and free of duplicates. */
  lemma OutputIsSorted(out: seq<MergedMint>, inputs: seq<Input>, i: nat)
    requires IsAggregate(out, inputs) && i < |out|
    ensures forall j :: i < j < |out| ==> Precedes(out[i].mint, out[j].mint) && out[i].mint != out[j].mint
    ensures forall k, l :: 0 <= k < l < |out[i].entries| ==>
      && Precedes(out[i].entries[k].pubkey, out[i].entries[l].pubkey)
      && out[i].entries[k].pubkey != out[i].entries[l].pubkey
  {
    var mints := SortedKeys(Mints(Markets(inputs)));
    var keys := SortedKeys(KeysOn(Rows(inputs), mints[i]));
    assert IsMerged(out[i], Markets(inputs), Rows(inputs), mints[i]);
    forall j | i < j < |out| ensures Precedes(out[i].mint, out[j].mint) {
      assert IsMerged(out[j], Markets(inputs), Rows(inputs), mints[j]);
    }
    forall k | 0 <= k < |out[i].entries| ensures out[i].entries[k].pubkey == keys[k] {
      assert IsSummed(out[i].entries[k], Rows(inputs), mints[i], keys[k]);
    }
  }

  /** One for each file of a mint with an index. */
  function FileOn(mint: Text, index: u64): Input -> int {
    (x: Input) => if x.market.mint == mint && x.market.index == index then 1 else 0
  }

  lemma {:induction false} IndicesCountFiles(inputs: seq<Input>, mint: Text, index: u64)
    ensures multiset(IndicesOf(Markets(inputs), mint))[index] == SumSeq(inputs, FileOn(mint, index))
  {
    if inputs != [] {
      var init, x := inputs[..|inputs| - 1], inputs[|inputs| - 1];
      IndicesCountFiles(init, mint, index);
      assert Markets(inputs) == Markets(init) + [x.market];
      FlatMapSnoc(Markets(init), x.market, IndexIf(mint));
    }
  }

  /** The sources of an output are the indices of its mint's own files, each as often as it occurs, ascending. */
  lemma SourcesAreFiles(out: seq<MergedMint>, inputs: seq<Input>, i: nat, index: u64)
    requires IsAggregate(out, inputs) && i < |out|
    ensures Ascending(out[i].sources)
    ensures multiset(out[i].sources)[index] == SumSeq(inputs, FileOn(out[i].mint, index))
  {
    var mint := SortedKeys(Mints(Markets(inputs)))[i];
    assert IsMerged(out[i], Markets(inputs), Rows(inputs), mint);
    SortIndicesSorts(IndicesOf(Markets(inputs), mint));
    IndicesCountFiles(inputs, mint, index);
  }

  lemma MarketIsPresent(inputs: seq<Input>, p: nat)
    requires p < |inputs|
    ensures inputs[p].market in Markets(inputs) && inputs[p].market.mint in Mints(Markets(inputs))
  {
    var m := inputs[p].market;
    FlatMapMember(inputs, MarketIn, m);
    assert m in MarketIn(inputs[p]);
    MintsMember(Markets(inputs), m.mint);
  }

  lemma TaggedIsPresent(x: Input, q: nat)
    requires q < |x.entries|
    ensures Row(x.market.mint, x.entries[q]) in RowsIn(x)
  {
    var r := Row(x.market.mint, x.entries[q]);
    FlatMapMember(x.entries, TagWith(x.market.mint), r);
    assert r in TagWith(x.market.mint)(x.entries[q]);
  }

  lemma RowIsPresent(inputs: seq<Input>, p: nat, q: nat)
    requires p < |inputs| && q < |inputs[p].entries|
    ensures inputs[p].entries[q].pubkey in KeysOn(Rows(inputs), inputs[p].market.mint)
  {
    var r := Row(inputs[p].market.mint, inputs[p].entries[q]);
    TaggedIsPresent(inputs[p], q);
    FlatMapMember(inputs, RowsIn, r);
    assert r in Rows(inputs);
    KeysOnMember(Rows(inputs), r.mint, r.entry.pubkey);
  }

  /**
   Every row's claimant has a row in its mint's output with the full sums, and the label is the lowest
   index of that mint.
   */
  lemma EveryRowIsPaid(out: seq<MergedMint>, inputs: seq<Input>, p: nat, q: nat) returns (i: nat, k: nat)
    requires IsAggregate(out, inputs) && p < |inputs| && q < |inputs[p].entries|
    ensures i < |out| && out[i].mint == inputs[p].market.mint && out[i].index <= inputs[p].market.index
    ensures k < |out[i].entries|
    ensures IsSummed(out[i].entries[k], Rows(inputs), inputs[p].market.mint, inputs[p].entries[q].pubkey)
  {
    var m, e := inputs[p].market, inputs[p].entries[q];
    var ms, rows := Markets(inputs), Rows(inputs);
    MarketIsPresent(inputs, p);
    RowIsPresent(inputs, p, q);
    RepresentativeIsLowest(ms, m.mint);
    i := KeyPosition(Mints(ms), m.mint);
    assert IsMerged(out[i], ms, rows, m.mint);
    k := KeyPosition(KeysOn(rows, m.mint), e.pubkey);
    assert IsSummed(out[i].entries[k], rows, m.mint, e.pubkey);
  }

  // ----- Nothing is lost -----

  function RawTotal(e: CsvEntry): int {
    e.amount + e.Locked()
  }

  /** What a row asks for on a mint. */
  function RawOn(mint: Text): Row -> int {
    (r: Row) => if r.mint == mint then RawTotal(r.entry) else 0
  }

  /** What the rows give a claimant on a mint, both parts together. */
  function KeyTotal(rows: seq<Row>, mint: Text): Text -> int {
    (key: Text) => MintAmount(rows, mint, key) + MintLocked(rows, mint, key)
  }

  predicate NoRepeats(keys: seq<Text>) {
    forall i, j :: 0 <= i < j < |keys| ==> keys[i] != keys[j]
  }

  /** One more row adds its total to exactly one key. */
  lemma {:induction false} KeyTotalsSnoc(keys: seq<Text>, rows: seq<Row>, r: Row, mint: Text)
    requires NoRepeats(keys)
    ensures SumSeq(keys, KeyTotal(rows + [r], mint)) == SumSeq(keys, KeyTotal(rows, mint))
      + if r.mint == mint && r.entry.pubkey in keys then RawTotal(r.entry) else 0
    decreases |keys|
  {
    if keys != [] {
      var init, key := keys[..|keys| - 1], keys[|keys| - 1];
      assert keys == init + [key];
      KeyTotalsSnoc(init, rows, r, mint);
      SumSeqSnoc(rows, r, AmountFor(mint, key));
      SumSeqSnoc(rows, r, LockedFor(mint, key));
    }
  }

  lemma {:induction false} NoRowsNoTotals(keys: seq<Text>, mint: Text)
    ensures SumSeq(keys, KeyTotal([], mint)) == 0
  {
    if keys != [] {
      NoRowsNoTotals(keys[..|keys| - 1], mint);
    }
  }

  /** Over keys that cover the mint's rows, the totals by key add up to the total of the rows. */
  lemma {:induction false} KeyTotalsAddUp(keys: seq<Text>, rows: seq<Row>, mint: Text)
    requires NoRepeats(keys)
    requires forall i :: 0 <= i < |rows| && rows[i].mint == mint ==> rows[i].entry.pubkey in keys
    ensures SumSeq(keys, KeyTotal(rows, mint)) == SumSeq(rows, RawOn(mint))
    decreases |rows|
  {
    if rows == [] {
      NoRowsNoTotals(keys, mint);
    } else {
      var init, r := rows[..|rows| - 1], rows[|rows| - 1];
      assert rows == init + [r];
      KeyTotalsAddUp(keys, init, mint);
      KeyTotalsSnoc(keys, init, r, mint);
    }
  }

  lemma {:induction false} SummedRowsTotal(entries: seq<CsvEntry>, keys: seq<Text>, rows: seq<Row>, mint: Text)
    requires |entries| == |keys|
    requires forall i :: 0 <= i < |entries| ==> IsSummed(entries[i], rows, mint, keys[i])
    ensures SumSeq(entries, RawTotal) == SumSeq(keys, KeyTotal(rows, mint))
  {
    if entries != [] {
      var k := |entries| - 1;
      SummedRowsTotal(entries[..k], keys[..k], rows, mint);
      assert IsSummed(entries[k], rows, mint, keys[k]);
    }
  }

  /** The rows of a merged mint add up to all rows of that mint over all files. */
  lemma MergedKeepsTotal(g: MergedMint, ms: seq<Market>, rows: seq<Row>, mint: Text)
    requires IsMerged(g, ms, rows, mint)
    ensures SumSeq(g.entries, RawTotal) == SumSeq(rows, RawOn(mint))
  {
    var keys := SortedKeys(KeysOn(rows, mint));
    SummedRowsTotal(g.entries, keys, rows, mint);
    forall i | 0 <= i < |rows| && rows[i].mint == mint ensures rows[i].entry.pubkey in keys {
      KeysOnMember(rows, mint, rows[i].entry.pubkey);
    }
    KeyTotalsAddUp(keys, rows, mint);
  }

  // ----- Order independence -----

  /** The same markets and the same rows, in any order. */
  ghost predicate SameInput(a: seq<Input>, b: seq<Input>) {
    multiset(Markets(a)) == multiset(Markets(b)) && multiset(Rows(a)) == multiset(Rows(b))
  }

  lemma PermutedFilesAreSameInput(a: seq<Input>, b: seq<Input>)
    requires multiset(a) == multiset(b)
    ensures SameInput(a, b)
  {
    FlatMapPermutation(a, b, RowsIn);
    FlatMapPermutation(a, b, MarketIn);
  }

  lemma {:induction false} PermutedRowsAreSameInput(a: seq<Input>, b: seq<Input>)
    requires |a| == |b|
    requires forall i :: 0 <= i < |a| ==> a[i].market == b[i].market && multiset(a[i].entries) == multiset(b[i].entries)
    ensures SameInput(a, b)
  {
    if a != [] {
      var x, y := a[|a| - 1], b[|b| - 1];
      PermutedRowsAreSameInput(a[..|a| - 1], b[..|b| - 1]);
      FlatMapPermutation(x.entries, y.entries, TagWith(x.market.mint));
    }
  }

  ghost predicate IsLowest(ms: seq<Market>, m: Market) {
    m in ms && forall n :: n in ms && n.mint == m.mint ==> m.index <= n.index
  }

  /** Markets of one mint that share the lowest index also share the symbol. */
  ghost predicate TiesAgree(ms: seq<Market>) {
    forall m, n :: IsLowest(ms, m) && IsLowest(ms, n) && m.mint == n.mint ==> m == n
  }

  lemma SameSums(a: seq<Row>, b: seq<Row>, mint: Text, key: Text)
    requires multiset(a) == multiset(b)
    ensures MintAmount(a, mint, key) == MintAmount(b, mint, key)
    ensures MintLocked(a, mint, key) == MintLocked(b, mint, key)
  {
    SumSeqPermutation(a, b, AmountFor(mint, key));
    SumSeqPermutation(a, b, LockedFor(mint, key));
  }

  lemma ParsesInAnyOrder(parse: KeyParser, a: seq<Row>, b: seq<Row>)
    requires multiset(a) == multiset(b) && AllParse(parse, a)
    ensures AllParse(parse, b)
  {
    forall i | 0 <= i < |b| ensures parse(b[i].entry.pubkey).Some? {
      assert b[i] in multiset(b);
      var j := IndexIn(a, b[i]);
    }
  }

  /** Whether aggregation succeeds never depends on the order of files or rows. */
  lemma SuccessIsOrderIndependent(parse: KeyParser, a: seq<Input>, b: seq<Input>)
    requires SameInput(a, b) && Clean(parse, Rows(a))
    ensures Clean(parse, Rows(b))
  {
    ParsesInAnyOrder(parse, Rows(a), Rows(b));
    forall mint, key ensures MintAmount(Rows(b), mint, key) <= U64_MAX && MintLocked(Rows(b), mint, key) <= U64_MAX {
      SameSums(Rows(a), Rows(b), mint, key);
      assert MintAmount(Rows(a), mint, key) <= U64_MAX;
    }
  }

  lemma SameKeys(a: seq<Row>, b: seq<Row>, mint: Text)
    requires multiset(a) == multiset(b)
    ensures KeysOn(a, mint) == KeysOn(b, mint)
  {
    forall key ensures key in KeysOn(a, mint) <==> key in KeysOn(b, mint) {
      KeysOnMember(a, mint, key);
      KeysOnMember(b, mint, key);
      if i :| 0 <= i < |a| && a[i].mint == mint && a[i].entry.pubkey == key {
        assert a[i] in multiset(a);
        var j := IndexIn(b, a[i]);
      }
      if i :| 0 <= i < |b| && b[i].mint == mint && b[i].entry.pubkey == key {
        assert b[i] in multiset(b);
        var j := IndexIn(a, b[i]);
      }
    }
  }

  lemma SameMints(a: seq<Market>, b: seq<Market>)
    requires multiset(a) == multiset(b)
    ensures Mints(a) == Mints(b)
  {
    forall mint ensures mint in Mints(a) <==> mint in Mints(b) {
      MintsMember(a, mint);
      MintsMember(b, mint);
      if i :| 0 <= i < |a| && a[i].mint == mint {
        assert a[i] in multiset(a);
        var j := IndexIn(b, a[i]);
      }
      if i :| 0 <= i < |b| && b[i].mint == mint {
        assert b[i] in multiset(b);
        var j := IndexIn(a, b[i]);
      }
    }
  }

  lemma SameEntries(g: MergedMint, f: MergedMint, ms: seq<Market>, ns: seq<Market>, a: seq<Row>, b: seq<Row>,
                    mint: Text)
    requires multiset(a) == multiset(b)
    requires IsMerged(g, ms, a, mint) && IsMerged(f, ns, b, mint)
    ensures g.entries == f.entries
  {
    SameKeys(a, b, mint);
    var keys := SortedKeys(KeysOn(a, mint));
    forall i | 0 <= i < |g.entries| ensures g.entries[i] == f.entries[i] {
      assert IsSummed(g.entries[i], a, mint, keys[i]) && IsSummed(f.entries[i], b, mint, keys[i]);
      SameSums(a, b, mint, keys[i]);
    }
  }

  lemma SameLabels(ms: seq<Market>, ns: seq<Market>, mint: Text)
    requires multiset(ms) == multiset(ns) && mint in Mints(ms)
    ensures mint in Mints(ns) && Representative(ms, mint).Some? && Representative(ns, mint).Some?
    ensures var r, q := Representative(ms, mint).value, Representative(ns, mint).value;
      r.index == q.index && (TiesAgree(ms) ==> r == q)
  {
    SameElements(ms, ns);
    SameMints(ms, ns);
    RepresentativeIsLowest(ms, mint);
    RepresentativeIsLowest(ns, mint);
    var r, q := Representative(ms, mint).value, Representative(ns, mint).value;
    assert IsLowest(ms, r) && IsLowest(ms, q);
  }

  /** Everything but the label of one merged mint is order independent; the label is when ties agree. */
  lemma MergedOfSameInput(g: MergedMint, f: MergedMint, ms: seq<Market>, ns: seq<Market>, a: seq<Row>, b: seq<Row>,
                          mint: Text)
    requires multiset(ms) == multiset(ns) && multiset(a) == multiset(b) && mint in Mints(ms)
    requires IsMerged(g, ms, a, mint) && IsMerged(f, ns, b, mint)
    ensures f == g.(symbol := f.symbol)
    ensures TiesAgree(ms) ==> f == g
  {
    SameEntries(g, f, ms, ns, a, b, mint);
    SameLabels(ms, ns, mint);
    FlatMapPermutation(ms, ns, IndexIf(mint));
    SortIndicesSorts(IndicesOf(ms, mint));
    SortIndicesSorts(IndicesOf(ns, mint));
    AscendingUnique(g.sources, f.sources);
  }

  /** With agreeing ties, reordering files and rows does not change the output. */
  lemma OutputIsOrderIndependent(a: seq<Input>, b: seq<Input>, out: seq<MergedMint>, out': seq<MergedMint>)
    requires SameInput(a, b) && TiesAgree(Markets(a))
    requires IsAggregate(out, a) && IsAggregate(out', b)
    ensures out == out'
  {
    SameMints(Markets(a), Markets(b));
    var mints := SortedKeys(Mints(Markets(a)));
    forall i | 0 <= i < |out| ensures out[i] == out'[i] {
      assert mints[i] in mints;
      MergedOfSameInput(out[i], out'[i], Markets(a), Markets(b), Rows(a), Rows(b), mints[i]);
    }
  }

  /** Distinct indices within each mint are enough for ties to agree. */
  lemma DistinctIndicesAgree(ms: seq<Market>)
    requires forall i, j :: 0 <= i < j < |ms| && ms[i].mint == ms[j].mint ==> ms[i].index != ms[j].index
    ensures TiesAgree(ms)
  {
  }

  // ----- Disagreeing ties make the order visible -----

  lemma {:induction false} FirstLowestWins(ms: seq<Market>)
    requires ms != [] && IsLowest(ms, ms[0])
    ensures Representative(ms, ms[0].mint) == Some(ms[0])
  {
    var init := ms[..|ms| - 1];
    if |ms| > 1 {
      assert forall m :: m in init ==> m in ms;
      assert ms[|ms| - 1] in ms;
      FirstLowestWins(init);
    } else {
      assert init == [];
    }
  }

  /** Move one file to the front. */
  function ToFront(inputs: seq<Input>, k: nat): seq<Input>
    requires k < |inputs|
  {
    [inputs[k]] + Without(inputs, k)
  }

  lemma ToFrontIsSameInput(inputs: seq<Input>, k: nat)
    requires k < |inputs|
    ensures SameInput(inputs, ToFront(inputs, k))
  {
    WithoutMultiset(inputs, k);
    PermutedFilesAreSameInput(inputs, ToFront(inputs, k));
  }

  lemma FrontMarket(x: Input, rest: seq<Input>)
    ensures Markets([x] + rest) != [] && Markets([x] + rest)[0] == x.market
  {
    FlatMapConcat([x], rest, MarketIn);
    FlatMapOne(x, MarketIn);
  }

  /** Putting a lowest market first makes its symbol the label. */
  lemma FrontLabels(inputs: seq<Input>, k: nat, out: seq<MergedMint>) returns (i: nat)
    requires k < |inputs| && IsLowest(Markets(inputs), inputs[k].market)
    requires IsAggregate(out, ToFront(inputs, k))
    ensures i < |out| && out[i].mint == inputs[k].market.mint && out[i].symbol == inputs[k].market.symbol
  {
    var front, m := ToFront(inputs, k), inputs[k].market;
    var ns := Markets(front);
    ToFrontIsSameInput(inputs, k);
    SameElements(Markets(inputs), ns);
    FrontMarket(inputs[k], Without(inputs, k));
    FirstLowestWins(ns);
    MintsMember(ns, m.mint);
    i := KeyPosition(Mints(ns), m.mint);
    assert IsMerged(out[i], ns, Rows(front), m.mint);
  }

  /**
   Agreeing ties are exactly what order independence needs: if two lowest markets of a mint differ in
   their symbol, then putting the one or the other first gives different outputs.
   */
  lemma DisagreeingTiesShow(inputs: seq<Input>, i: nat, k: nat, out: seq<MergedMint>, out': seq<MergedMint>)
    requires i < |inputs| && k < |inputs|
    requires IsLowest(Markets(inputs), inputs[i].market) && IsLowest(Markets(inputs), inputs[k].market)
    requires inputs[i].market.mint == inputs[k].market.mint && inputs[i].market != inputs[k].market
    requires IsAggregate(out, ToFront(inputs, i)) && IsAggregate(out', ToFront(inputs, k))
    ensures SameInput(inputs, ToFront(inputs, i)) && SameInput(inputs, ToFront(inputs, k))
    ensures out != out'
  {
    ToFrontIsSameInput(inputs, i);
    ToFrontIsSameInput(inputs, k);
    var p := FrontLabels(inputs, i, out);
    var q := FrontLabels(inputs, k, out');
    if p < q {
      OutputIsSorted(out, ToFront(inputs, i), p);
    } else if q < p {
      OutputIsSorted(out, ToFront(inputs, i), q);
    }
  }

  ghost function SummedRow(parse: KeyParser, rows: seq<Row>, mint: Text, key: Text): (e: CsvEntry)
    requires Clean(parse, rows)
    ensures IsSummed(e, rows, mint, key)
  {
    SumsGrow(rows, [], mint, key);
    assert MintAmount(rows, mint, key) <= U64_MAX;
    CsvEntry(key, MintAmount(rows, mint, key), Some(MintLocked(rows, mint, key)))
  }

  ghost function MergedFor(parse: KeyParser, ms: seq<Market>, rows: seq<Row>, mint: Text): (g: MergedMint)
    requires Clean(parse, rows) && mint in Mints(ms)
    ensures IsMerged(g, ms, rows, mint)
  {
    RepresentativeIsLowest(ms, mint);
    var keys := SortedKeys(KeysOn(rows, mint));
    var rep := Representative(ms, mint).value;
    MergedMint(mint, rep.symbol, rep.index, SortIndices(IndicesOf(ms, mint)),
               seq(|keys|, i requires 0 <= i < |keys| => SummedRow(parse, rows, mint, keys[i])))
  }

  /** The output of a clean input. */
  ghost function AggregateOf(parse: KeyParser, inputs: seq<Input>): (out: seq<MergedMint>)
    requires Clean(parse, Rows(inputs))
    ensures IsAggregate(out, inputs)
  {
    var mints := SortedKeys(Mints(Markets(inputs)));
    seq(|mints|, i requires 0 <= i < |mints| =>
      assert mints[i] in mints; MergedFor(parse, Markets(inputs), Rows(inputs), mints[i]))
  }

  /** The output is the same for every order of files and rows exactly when ties agree. */
  lemma OrderIndependentIff(parse: KeyParser, inputs: seq<Input>)
    requires Clean(parse, Rows(inputs))
    ensures TiesAgree(Markets(inputs)) <==>
      forall other, out, out' ::
        SameInput(inputs, other) && IsAggregate(out, inputs) && IsAggregate(out', other) ==> out == out'
  {
    var ms := Markets(inputs);
    if TiesAgree(ms) {
      forall other, out, out' | SameInput(inputs, other) && IsAggregate(out, inputs) && IsAggregate(out', other)
        ensures out == out'
      {
        OutputIsOrderIndependent(inputs, other, out, out');
      }
    } else {
      var m, n :| IsLowest(ms, m) && IsLowest(ms, n) && m.mint == n.mint && m != n;
      var i := FileOf(inputs, m);
      var k := FileOf(inputs, n);
      ToFrontIsSameInput(inputs, i);
      ToFrontIsSameInput(inputs, k);
      SuccessIsOrderIndependent(parse, inputs, ToFront(inputs, i));
      SuccessIsOrderIndependent(parse, inputs, ToFront(inputs, k));
      var here, first, second := AggregateOf(parse, inputs),
          AggregateOf(parse, ToFront(inputs, i)), AggregateOf(parse, ToFront(inputs, k));
      DisagreeingTiesShow(inputs, i, k, first, second);
      assert here != first || here != second;
    }
  }

  lemma FileOf(inputs: seq<Input>, m: Market) returns (i: nat)
    requires m in Markets(inputs)
    ensures i < |inputs| && inputs[i].market == m
  {
    FlatMapMember(inputs, MarketIn, m);
    i :| i < |inputs| && m in MarketIn(inputs[i]);
  }
}
