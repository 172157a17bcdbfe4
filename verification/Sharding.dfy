/**
 From merged rows to trees: unit scaling (merkle-tree/src/csv_amount_unit.rs, tree_node.rs) and the
 loop that cuts the rows into trees (cli/src/bin/instructions/process_create_merkle_tree.rs).
 */
module Sharding {
  import opened Bytes
  import opened Sums
  import opened Aggregate
  import opened MerkleVerify
  import opened AirdropTree

  datatype CsvAmountUnit = Tokens | Cents

  function Pow10(k: nat): nat {
    if k == 0 then 1 else 10 * Pow10(k - 1)
  }

  /** Base units per CSV unit, when it fits u64. */
  function Scale(decimals: nat, unit: CsvAmountUnit): Option<nat> {
    match unit
    case Tokens => if Pow10(decimals) <= U64_MAX then Some(Pow10(decimals)) else None
    case Cents => if decimals >= 2 && Pow10(decimals - 2) <= U64_MAX then Some(Pow10(decimals - 2)) else None
  }

  /** How amounts and keys are read. */
  datatype Format = Format(parse: KeyParser, decimals: nat, unit: CsvAmountUnit)

  function ToBaseUnits(amount: u64, f: Format): Option<u64> {
    match Scale(f.decimals, f.unit)
    case None => None
    case Some(scale) =>
      ProductNonNegative(amount, scale);
      if amount * scale <= U64_MAX then Some(amount * scale) else None
  }

  function FromCsv(e: CsvEntry, f: Format): Option<TreeNode> {
    var amount := ToBaseUnits(e.amount, f);
    var locked := if e.locked.Some? then ToBaseUnits(e.locked.value, f) else Some(0);
    var claimant := f.parse(e.pubkey);
    if amount.None? || locked.None? || claimant.None? then None
    else Some(TreeNode(claimant.value, amount.value, if e.locked.Some? then locked else None, None))
  }

  lemma {:induction false} Pow10Monotone(a: nat, b: nat)
    requires a <= b
    ensures 1 <= Pow10(a) <= Pow10(b)
    decreases b
  {
    if a < b {
      Pow10Monotone(a, b - 1);
    } else if a > 0 {
      Pow10Monotone(a - 1, b - 1);
    }
  }

  lemma LargestPow10()
    ensures Pow10(19) <= U64_MAX < Pow10(20)
  {
    assert Pow10(5) == 100_000;
    assert Pow10(10) == 10_000_000_000;
    assert Pow10(15) == 1_000_000_000_000_000;
    assert Pow10(19) == 10_000_000_000_000_000_000;
  }

  /**
   Whole tokens scale for up to 19 decimals and cents for 2 to 21. A token without decimals is one base
   unit and so is a cent of a token with two; each further decimal counts ten times.
   */
  lemma ScaleDefinedIff(decimals: nat)
    ensures Scale(decimals, Tokens).Some? <==> decimals <= 19
    ensures Scale(decimals, Cents).Some? <==> 2 <= decimals <= 21
    ensures Scale(0, Tokens) == Some(1) && Scale(2, Cents) == Some(1)
    ensures decimals < 19 ==> Scale(decimals + 1, Tokens) == Some(10 * Scale(decimals, Tokens).value)
    ensures 2 <= decimals < 21 ==> Scale(decimals + 1, Cents) == Some(10 * Scale(decimals, Cents).value)
    ensures 2 <= decimals <= 19 ==> Scale(decimals, Tokens).value == 100 * Scale(decimals, Cents).value
  {
    ScaleRange(decimals);
    ScaleRange(decimals + 1);
    if decimals >= 2 {
      assert Pow10(decimals) == 10 * Pow10(decimals - 1);
    }
  }

  lemma ScaleRange(decimals: nat)
    ensures Scale(decimals, Tokens).Some? <==> decimals <= 19
    ensures Scale(decimals, Cents).Some? <==> 2 <= decimals <= 21
  {
    LargestPow10();
    if decimals <= 19 {
      Pow10Monotone(decimals, 19);
    } else {
      Pow10Monotone(20, decimals);
    }
    if 2 <= decimals <= 21 {
      Pow10Monotone(decimals - 2, 19);
    } else if decimals > 21 {
      Pow10Monotone(20, decimals - 2);
    }
  }

  /** The base units of a raw amount: ten to the decimals per token, a hundredth of that per cent. */
  predicate InBaseUnits(base: int, raw: int, f: Format) {
    match f.unit
    case Tokens => base == raw * Pow10(f.decimals)
    case Cents => 100 * base == raw * Pow10(f.decimals)
  }

  /** Scaling gives base units. */
  lemma ScaledIsInBaseUnits(raw: int, f: Format)
    requires Scale(f.decimals, f.unit).Some?
    ensures InBaseUnits(raw * Scale(f.decimals, f.unit).value, raw, f)
  {
    if f.unit.Cents? {
      var cents := Pow10(f.decimals - 2);
      assert Pow10(f.decimals) == 10 * Pow10(f.decimals - 1) == 100 * cents;
      assert raw * (100 * cents) == 100 * (raw * cents);
    }
  }

  /** A row becomes a leaf exactly when its key parses and both amounts fit after scaling, and nothing else changes. */
  lemma FromCsvScales(e: CsvEntry, f: Format)
    ensures FromCsv(e, f).Some? <==>
      && f.parse(e.pubkey).Some? && Scale(f.decimals, f.unit).Some?
      && e.amount * Scale(f.decimals, f.unit).value <= U64_MAX
      && e.Locked() * Scale(f.decimals, f.unit).value <= U64_MAX
    ensures FromCsv(e, f).Some? ==>
      var n, scale := FromCsv(e, f).value, Scale(f.decimals, f.unit).value;
      && Some(n.claimant) == f.parse(e.pubkey)
      && n.amount == e.amount * scale && n.Locked() == e.Locked() * scale
      && InBaseUnits(n.amount, e.amount, f) && InBaseUnits(n.Locked(), e.Locked(), f)
      && (n.locked.Some? <==> e.locked.Some?)
  {
    if Scale(f.decimals, f.unit).Some? {
      ScaledIsInBaseUnits(e.amount, f);
      ScaledIsInBaseUnits(e.Locked(), f);
    }
  }

  predicate Convertible(entries: seq<CsvEntry>, f: Format) {
    forall i :: 0 <= i < |entries| ==> FromCsv(entries[i], f).Some?
  }

  function Converted(entries: seq<CsvEntry>, f: Format): seq<TreeNode>
    requires Convertible(entries, f)
  {
    seq(|entries|, i requires 0 <= i < |entries| => FromCsv(entries[i], f).value)
  }

  /** `AirdropMerkleTree::new_from_entries` works on these entries. */
  predicate Buildable(entries: seq<CsvEntry>, f: Format) {
    && entries != []
    && Convertible(entries, f)
    && Total(Converted(entries, f)) <= U64_MAX
    && |FirstSeen(Converted(entries, f))| < 0x1_0000_0000
  }

  /** The tree of one shard. */
  ghost predicate TreeFor(h: HashFn, t: AirdropTree, shard: seq<CsvEntry>, f: Format, version: int) {
    && Convertible(shard, f)
    && Publishable(h, t)
    && Combines(t.nodes, Converted(shard, f))
    && t.maxTotalClaim == Total(Converted(shard, f))
    && t.version == version
  }

  method NewFromEntries(h: HashFn, entries: seq<CsvEntry>, version: u64, f: Format) returns (r: Option<AirdropTree>)
    ensures r.Some? <==> Buildable(entries, f)
    ensures r.Some? ==> TreeFor(h, r.value, entries, f, version)
  {
    if !Convertible(entries, f) {
      return None;
    }
    var built := Build(h, Converted(entries, f), version);
    r := if built.Ok? then Some(built.value) else None;
  }

  // ----- The sharding loop -----

  /** The rows cut into pieces of n, the last possibly shorter. */
  function Shards(entries: seq<CsvEntry>, n: nat): seq<seq<CsvEntry>>
    requires n >= 1
    decreases |entries|
  {
    if entries == [] then []
    else if |entries| <= n then [entries]
    else [entries[..n]] + Shards(entries[n..], n)
  }

  /** Every shard makes a tree, and the versions fit u64. */
  predicate AllBuildable(entries: seq<CsvEntry>, n: nat, start: u64, f: Format)
    requires n >= 1
  {
    && (forall i :: 0 <= i < |Shards(entries, n)| ==> Buildable(Shards(entries, n)[i], f))
    && start + |Shards(entries, n)| <= U64_MAX
  }

  /**
   Cut off up to n rows, build their tree, and go on with the rest; None stands for a panic. The loop
   ends for n = 0 too: it then asks for a tree of no rows, which fails.
   */
  method CreateTrees(h: HashFn, entries: seq<CsvEntry>, n: nat, start: u64, f: Format)
    returns (r: Option<seq<AirdropTree>>)
    ensures r.Some? <==> entries == [] || (n >= 1 && AllBuildable(entries, n, start, f))
    ensures r.Some? && entries == [] ==> r.value == []
    ensures r.Some? && entries != [] ==> TreesOf(h, r.value, entries, n, start, f)
  {
    if n == 0 {
      if |entries| > 0 {
        var tree := NewFromEntries(h, entries[0..0], start, f);
        assert tree.None?;
        return None;
      }
      return Some([]);
    }
    var rest := entries;
    var version: u64 := start;
    var trees: seq<AirdropTree> := [];
    ghost var all := Shards(entries, n);
    while |rest| > 0
      invariant |trees| <= |all| && all[|trees|..] == Shards(rest, n)
      invariant version == start + |trees|
      invariant forall i :: 0 <= i < |trees| ==> Buildable(all[i], f) && TreeFor(h, trees[i], all[i], f, start + i)
      decreases |rest|
    {
      var last := if n < |rest| then n else |rest|;
      var shard := rest[0..last];
      ghost var k := |trees|;
      ShardsUnfold(rest, n, shard);
      assert all[k] == all[k..][0] && all[k + 1..] == all[k..][1..];
      rest := rest[last..];
      var tree := NewFromEntries(h, shard, version, f);
      if tree.None? {
        return None;
      }
      trees := trees + [tree.value];
      if version + 1 > U64_MAX {
        assert |all| >= k + 1;
        return None;
      }
      version := version + 1;
    }
    r := Some(trees);
  }

  lemma ShardsUnfold(rest: seq<CsvEntry>, n: nat, shard: seq<CsvEntry>)
    requires n >= 1 && rest != [] && shard == rest[..if n < |rest| then n else |rest|]
    ensures Shards(rest, n) != [] && Shards(rest, n)[0] == shard
    ensures Shards(rest, n)[1..] == Shards(rest[|shard|..], n)
  {
  }

  // ----- What the shards are -----

  function Whole(s: seq<CsvEntry>): seq<CsvEntry> {
    s
  }

  /** The shards are consecutive and together are the input; all have n rows except a shorter last one. */
  lemma {:induction false} ShardsPartition(entries: seq<CsvEntry>, n: nat)
    requires n >= 1
    ensures FlatMap(Shards(entries, n), Whole) == entries
    ensures forall i :: 0 <= i < |Shards(entries, n)| ==> 1 <= |Shards(entries, n)[i]| <= n
    ensures forall i :: 0 <= i < |Shards(entries, n)| - 1 ==> |Shards(entries, n)[i]| == n
    decreases |entries|
  {
    if entries != [] {
      if |entries| <= n {
        FlatMapOne(entries, Whole);
      } else {
        var head, tail := entries[..n], entries[n..];
        ShardsPartition(tail, n);
        FlatMapConcat([head], Shards(tail, n), Whole);
        FlatMapOne(head, Whole);
      }
    }
  }

  // ----- Totals -----

  /** What a row asks for in base units. */
  function ScaledBy(scale: nat): CsvEntry -> int {
    (e: CsvEntry) => e.amount * scale + e.Locked() * scale
  }

  lemma Distributes(a: int, b: int, c: int)
    ensures (a + b) * c == a * c + b * c
  {
  }

  lemma {:induction false} ScalingDistributes(entries: seq<CsvEntry>, scale: nat)
    ensures SumSeq(entries, ScaledBy(scale)) == SumSeq(entries, RawTotal) * scale
  {
    if entries != [] {
      var init, e := entries[..|entries| - 1], entries[|entries| - 1];
      ScalingDistributes(init, scale);
      Distributes(e.amount, e.Locked(), scale);
      Distributes(SumSeq(init, RawTotal), RawTotal(e), scale);
    }
  }

  lemma RowTotal(e: CsvEntry, f: Format, scale: nat)
    requires FromCsv(e, f).Some? && Scale(f.decimals, f.unit) == Some(scale)
    ensures FromCsv(e, f).value.Total() == ScaledBy(scale)(e)
  {
  }

  lemma {:induction false} ConvertedTotal(entries: seq<CsvEntry>, f: Format, scale: nat)
    requires Convertible(entries, f) && Scale(f.decimals, f.unit) == Some(scale)
    ensures Total(Converted(entries, f)) == SumSeq(entries, ScaledBy(scale))
  {
    if entries != [] {
      var init, e := entries[..|entries| - 1], entries[|entries| - 1];
      ConvertedTotal(init, f, scale);
      assert Converted(entries, f)[..|entries| - 1] == Converted(init, f);
      RowTotal(e, f, scale);
    }
  }

  function Cap(t: AirdropTree): int {
    t.maxTotalClaim
  }

  lemma {:induction false} CapsAddUp(h: HashFn, trees: seq<AirdropTree>, shards: seq<seq<CsvEntry>>, f: Format,
                                     start: u64, scale: nat)
    requires |trees| == |shards| && Scale(f.decimals, f.unit) == Some(scale)
    requires forall i :: 0 <= i < |trees| ==> TreeFor(h, trees[i], shards[i], f, start + i)
    ensures SumSeq(trees, Cap) == SumSeq(FlatMap(shards, Whole), ScaledBy(scale))
  {
    if trees != [] {
      var k := |trees| - 1;
      CapsAddUp(h, trees[..k], shards[..k], f, start, scale);
      assert TreeFor(h, trees[k], shards[k], f, start + k);
      ConvertedTotal(shards[k], f, scale);
      SumSeqConcat(FlatMap(shards[..k], Whole), shards[k], ScaledBy(scale));
    }
  }

  // ----- Leaves -----

  /** No two rows carry the same key string. */
  predicate DistinctKeys(entries: seq<CsvEntry>) {
    forall i, j :: 0 <= i < j < |entries| ==> entries[i].pubkey != entries[j].pubkey
  }

  lemma DistinctParts(a: seq<CsvEntry>, b: seq<CsvEntry>)
    requires DistinctKeys(a + b)
    ensures DistinctKeys(a) && DistinctKeys(b)
  {
    var all := a + b;
    forall i, j | 0 <= i < j < |a| ensures a[i].pubkey != a[j].pubkey {
      assert all[i].pubkey != all[j].pubkey;
    }
    forall i, j | 0 <= i < j < |b| ensures b[i].pubkey != b[j].pubkey {
      assert all[|a| + i].pubkey != all[|a| + j].pubkey;
    }
  }

  /** Different strings never denote the same public key. */
  ghost predicate Injective(parse: KeyParser) {
    forall x, y :: parse(x).Some? && parse(x) == parse(y) ==> x == y
  }

  lemma {:induction false} DistinctSeenInOrder(rows: seq<TreeNode>)
    requires Distinct(rows)
    ensures |FirstSeen(rows)| == |rows| && forall i :: 0 <= i < |rows| ==> FirstSeen(rows)[i] == rows[i].claimant
  {
    if rows != [] {
      var init, c := rows[..|rows| - 1], rows[|rows| - 1].claimant;
      assert Distinct(init);
      DistinctSeenInOrder(init);
      forall i | 0 <= i < |init| ensures FirstSeen(init)[i] != c {
        assert rows[i].claimant != c;
      }
    }
  }

  lemma {:induction false} DistinctGetsOwn(rows: seq<TreeNode>, i: nat)
    requires Distinct(rows) && i < |rows|
    ensures AmountOf(rows, rows[i].claimant) == rows[i].amount
    ensures LockedOf(rows, rows[i].claimant) == rows[i].Locked()
  {
    var init := rows[..|rows| - 1];
    if i < |init| {
      DistinctGetsOwn(init, i);
    } else {
      AbsentGetsNothing(init, rows[i].claimant);
    }
  }

  /** Combining rows of distinct claimants changes nothing. */
  lemma CombiningDistinctIsIdentity(nodes: seq<TreeNode>, rows: seq<TreeNode>)
    requires Distinct(rows) && Combines(nodes, rows)
    ensures Grants(nodes) == Grants(rows)
  {
    DistinctSeenInOrder(rows);
    forall i | 0 <= i < |rows| ensures nodes[i].Grant() == rows[i].Grant() {
      DistinctGetsOwn(rows, i);
      assert IsCombined(nodes[i], rows, FirstSeen(rows)[i]);
    }
  }

  lemma ConvertedDistinct(entries: seq<CsvEntry>, f: Format)
    requires Convertible(entries, f) && DistinctKeys(entries) && Injective(f.parse)
    ensures Distinct(Converted(entries, f))
  {
    forall i, j | 0 <= i < j < |entries|
      ensures Converted(entries, f)[i].claimant != Converted(entries, f)[j].claimant
    {
      assert FromCsv(entries[i], f).Some? && FromCsv(entries[j], f).Some?;
      assert f.parse(entries[i].pubkey).Some? && f.parse(entries[j].pubkey).Some?;
    }
  }

  function LeavesOf(t: AirdropTree): seq<Entitlement> {
    Grants(t.nodes)
  }

  /** The entitlements that the rows ask for. */
  function Asked(entries: seq<CsvEntry>, f: Format): seq<Entitlement>
    requires Convertible(entries, f)
  {
    Grants(Converted(entries, f))
  }

  lemma AskedConcat(a: seq<CsvEntry>, b: seq<CsvEntry>, f: Format)
    requires Convertible(a, f) && Convertible(b, f)
    ensures Convertible(a + b, f) && Asked(a + b, f) == Asked(a, f) + Asked(b, f)
  {
  }

  lemma ShardLeaves(h: HashFn, t: AirdropTree, shard: seq<CsvEntry>, f: Format, version: int)
    requires TreeFor(h, t, shard, f, version) && DistinctKeys(shard) && Injective(f.parse)
    ensures LeavesOf(t) == Asked(shard, f)
  {
    ConvertedDistinct(shard, f);
    CombiningDistinctIsIdentity(t.nodes, Converted(shard, f));
  }

  lemma {:induction false} LeavesAddUp(h: HashFn, trees: seq<AirdropTree>, shards: seq<seq<CsvEntry>>, f: Format,
                                       start: u64)
    requires |trees| == |shards| && Injective(f.parse) && DistinctKeys(FlatMap(shards, Whole))
    requires forall i :: 0 <= i < |trees| ==> TreeFor(h, trees[i], shards[i], f, start + i)
    ensures Convertible(FlatMap(shards, Whole), f)
    ensures FlatMap(trees, LeavesOf) == Asked(FlatMap(shards, Whole), f)
  {
    if trees != [] {
      var k := |trees| - 1;
      var before, shard := FlatMap(shards[..k], Whole), shards[k];
      var all := FlatMap(shards, Whole);
      assert all == before + shard;
      DistinctParts(before, shard);
      LeavesAddUp(h, trees[..k], shards[..k], f, start);
      ShardLeaves(h, trees[k], shard, f, start + k);
      AskedConcat(before, shard, f);
    }
  }

  /** Rows produced by aggregation have distinct keys. */
  lemma AggregatedKeysDistinct(out: seq<MergedMint>, inputs: seq<Input>, i: nat)
    requires IsAggregate(out, inputs) && i < |out|
    ensures DistinctKeys(out[i].entries)
  {
    OutputIsSorted(out, inputs, i);
  }

  /** One tree per shard, with consecutive versions: what `CreateTrees` returns. */
  ghost predicate TreesOf(h: HashFn, trees: seq<AirdropTree>, entries: seq<CsvEntry>, n: nat, start: u64, f: Format)
    requires n >= 1
  {
    && |trees| == |Shards(entries, n)|
    && forall i :: 0 <= i < |trees| ==> TreeFor(h, trees[i], Shards(entries, n)[i], f, start + i)
  }

  /** Over all shards the leaves are exactly the rows, in their order, with one leaf per claimant. */
  lemma LeavesAreRows(h: HashFn, trees: seq<AirdropTree>, entries: seq<CsvEntry>, n: nat, start: u64, f: Format)
    requires n >= 1 && TreesOf(h, trees, entries, n, start, f) && DistinctKeys(entries) && Injective(f.parse)
    ensures Convertible(entries, f)
    ensures FlatMap(trees, LeavesOf) == Asked(entries, f)
    ensures forall i, j :: 0 <= i < j < |entries| ==> Asked(entries, f)[i].claimant != Asked(entries, f)[j].claimant
  {
    ShardsPartition(entries, n);
    LeavesAddUp(h, trees, Shards(entries, n), f, start);
    AskedDistinct(entries, f);
  }

  /** Versions are consecutive, trees hold at most n leaves, and the caps sum to the scaled total of the rows. */
  lemma CapsAreTotal(h: HashFn, trees: seq<AirdropTree>, entries: seq<CsvEntry>, n: nat, start: u64, f: Format,
                     scale: nat)
    requires n >= 1 && TreesOf(h, trees, entries, n, start, f) && Scale(f.decimals, f.unit) == Some(scale)
    ensures SumSeq(trees, Cap) == SumSeq(entries, RawTotal) * scale
    ensures InBaseUnits(SumSeq(trees, Cap), SumSeq(entries, RawTotal), f)
    ensures forall i :: 0 <= i < |trees| ==> trees[i].version == start + i && 1 <= |trees[i].nodes| <= n
  {
    var shards := Shards(entries, n);
    ShardsPartition(entries, n);
    forall i | 0 <= i < |trees| ensures trees[i].version == start + i && 1 <= |trees[i].nodes| <= n {
      TreeSize(h, trees[i], shards[i], f, start + i);
    }
    CapsAddUp(h, trees, shards, f, start, scale);
    ScalingDistributes(entries, scale);
    ScaledIsInBaseUnits(SumSeq(entries, RawTotal), f);
  }

  /**
   From aggregation to trees nothing is lost, added or paid twice: the leaves over all shards are
   exactly the aggregated rows of the mint, each claimant has one leaf, and the caps sum to the
   scaled total of all rows of that mint in all market files.
   */
  lemma PipelineConserves(h: HashFn, out: seq<MergedMint>, inputs: seq<Input>, m: nat, n: nat, start: u64, f: Format,
                          trees: seq<AirdropTree>)
    requires IsAggregate(out, inputs) && m < |out| && Injective(f.parse)
    requires n >= 1 && TreesOf(h, trees, out[m].entries, n, start, f)
    ensures Convertible(out[m].entries, f)
    ensures FlatMap(trees, LeavesOf) == Asked(out[m].entries, f)
    ensures forall i, j :: 0 <= i < j < |out[m].entries| ==>
      Asked(out[m].entries, f)[i].claimant != Asked(out[m].entries, f)[j].claimant
    ensures Scale(f.decimals, f.unit).Some? ==>
      InBaseUnits(SumSeq(trees, Cap), SumSeq(Rows(inputs), RawOn(out[m].mint)), f)
  {
    AggregatedKeysDistinct(out, inputs, m);
    LeavesAreRows(h, trees, out[m].entries, n, start, f);
    if Scale(f.decimals, f.unit).Some? {
      CapsAreTotal(h, trees, out[m].entries, n, start, f, Scale(f.decimals, f.unit).value);
      MergedKeepsTotal(out[m], Markets(inputs), Rows(inputs), out[m].mint);
      ScaledIsInBaseUnits(SumSeq(Rows(inputs), RawOn(out[m].mint)), f);
    }
  }

  lemma AskedDistinct(entries: seq<CsvEntry>, f: Format)
    requires Convertible(entries, f) && DistinctKeys(entries) && Injective(f.parse)
    ensures forall i, j :: 0 <= i < j < |entries| ==> Asked(entries, f)[i].claimant != Asked(entries, f)[j].claimant
  {
    ConvertedDistinct(entries, f);
    forall i, j | 0 <= i < j < |entries| ensures Asked(entries, f)[i].claimant != Asked(entries, f)[j].claimant {
      assert Converted(entries, f)[i].claimant != Converted(entries, f)[j].claimant;
    }
  }

  lemma TreeSize(h: HashFn, t: AirdropTree, shard: seq<CsvEntry>, f: Format, version: int)
    requires TreeFor(h, t, shard, f, version)
    ensures 1 <= |t.nodes| <= |shard| && t.version == version
  {
    FirstSeenAtMost(Converted(shard, f));
  }

  lemma {:induction false} FirstSeenAtMost(rows: seq<TreeNode>)
    ensures |FirstSeen(rows)| <= |rows|
  {
    if rows != [] {
      FirstSeenAtMost(rows[..|rows| - 1]);
    }
  }
}
