/**
 * `src/node/interface/blocks/view.rs`: the block subsidy schedule, the
 * block-explorer height field and its previous/next buttons, the size unit,
 * the total value moved by a block, the latest-blocks list and the
 * expandable transaction rows.
 */
module BlocksView {
  import opened Common
  import Util
  import opened Message

  // ---------------------------------------------------------------------------
  // Subsidy

  const HALVING_INTERVAL: nat := 210000
  /** 50 BTC in satoshis. */
  const INITIAL_SUBSIDY: nat := 5000000000

  /** `INITIAL_SUBSIDY >> halvings`. */
  function SubsidyAfter(halvings: nat): nat {
    INITIAL_SUBSIDY / Pow2(halvings)
  }

  /**
   * `get_block_subsidy`: the reward of the era the `u32` height falls in,
   * and nothing from the 64th halving on.
   */
  function GetBlockSubsidy(height: nat): (sats: nat)
    requires height <= U32_MAX
    ensures height < HALVING_INTERVAL ==> sats == INITIAL_SUBSIDY
    ensures height / HALVING_INTERVAL >= 64 ==> sats == 0
    ensures sats <= INITIAL_SUBSIDY
  {
    var halvings := height / HALVING_INTERVAL;
    if halvings >= 64 then 0 else SubsidyAfter(halvings)
  }

  /** `x / (a * b) == x / a / b`. */
  lemma DivDiv(x: nat, a: nat, b: nat)
    requires a > 0 && b > 0
    ensures x / (a * b) == x / a / b
  {
    var q, d := x / a / b, (x / a) % b;
    DivMod(x, a);
    DivMod(x / a, b);
    MulDistributes(q, b, d, a);
    assert x == q * (a * b) + (d * a + x % a);
    MulBelow(d, b, x % a, a);
    LemmaModUnique(x, a * b, q, d * a + x % a);
  }

  /** Each halving halves the reward, rounding down. */
  lemma SubsidyAfterNext(k: nat)
    ensures SubsidyAfter(k + 1) == SubsidyAfter(k) / 2
  {
    assert Pow2(k + 1) == Pow2(k) * 2;
    DivDiv(INITIAL_SUBSIDY, Pow2(k), 2);
  }

  /** Later eras never pay more. */
  lemma {:induction false} SubsidyAfterNonIncreasing(k1: nat, k2: nat)
    requires k1 <= k2
    ensures SubsidyAfter(k2) <= SubsidyAfter(k1)
    decreases k2 - k1
  {
    if k1 < k2 {
      SubsidyAfterNonIncreasing(k1, k2 - 1);
      SubsidyAfterNext(k2 - 1);
    }
  }

  /** One halving interval later the subsidy is half of what it was. */
  lemma SubsidyHalves(height: nat)
    requires height + HALVING_INTERVAL <= U32_MAX
    ensures GetBlockSubsidy(height + HALVING_INTERVAL) == GetBlockSubsidy(height) / 2
  {
    var k := height / HALVING_INTERVAL;
    assert (height + HALVING_INTERVAL) / HALVING_INTERVAL == k + 1;
    SubsidyAfterNext(k);
    if k == 63 {
      SubsidyRunsOut(63);
    }
  }

  /** The subsidy never grows with the height. */
  lemma SubsidyNonIncreasing(h1: nat, h2: nat)
    requires h1 <= h2 <= U32_MAX
    ensures GetBlockSubsidy(h2) <= GetBlockSubsidy(h1)
  {
    var k1, k2 := h1 / HALVING_INTERVAL, h2 / HALVING_INTERVAL;
    if k2 < 64 {
      SubsidyAfterNonIncreasing(k1, k2);
    }
  }

  lemma Pow2At33()
    ensures Pow2(33) == 8589934592
  {
    assert Pow(2, 8) == 256;
    assert Pow(2, 16) == Pow(2, 8) * Pow(2, 8) by { PowAdd(2, 8, 8); }
    assert Pow(2, 32) == Pow(2, 16) * Pow(2, 16) by { PowAdd(2, 16, 16); }
  }

  /** The 33rd halving ends the subsidy, long before the 64-halving guard. */
  lemma SubsidyRunsOut(k: nat)
    requires k >= 33
    ensures SubsidyAfter(k) == 0
  {
    Pow2At33();
    SubsidyAfterNonIncreasing(33, k);
  }

  /** In the 32nd era the subsidy is a single satoshi. */
  lemma LastSatoshiEra()
    ensures SubsidyAfter(32) == 1
  {
    Pow2At33();
    SubsidyAfterNext(32);
    assert Pow2(33) == Pow2(32) * 2;
  }

  // ---------------------------------------------------------------------------
  // Height field and stepping

  /** The height typed into the explorer field, with every comma removed, read as a `u32`. */
  function ParseHeight(input: string): (h: Option<nat>)
    ensures h.Some? <==>
      var d := WithoutPlus(RemoveCommas(input)); |d| > 0 && IsDigits(d) && DigitsValue(d) <= U32_MAX
    ensures h.Some? ==> IsDigits(WithoutPlus(RemoveCommas(input)))
                        && h.value == DigitsValue(WithoutPlus(RemoveCommas(input)))
    ensures h.Some? ==> h.value <= U32_MAX
    ensures forall c | c in input && c != ',' && c != '+' && !IsDigit(c) :: h.None?
  {
    RemoveCommasMembers(input);
    ParseU32(RemoveCommas(input))
  }

  /** Thousands separators are accepted. */
  lemma ParseHeightAccepts()
    ensures ParseHeight("1,234") == Some(1234)
  {
    SeparatedDigits();
  }

  lemma SeparatedDigits()
    ensures RemoveCommas("1,234") == "1234" && IsDigits("1234") && DigitsValue("1234") == 1234
  {
    assert "1234"[..3] == "123" && "123"[..2] == "12" && "12"[..1] == "1";
  }

  /** A minus sign, a letter or an empty field is rejected. */
  lemma ParseHeightRejects()
    ensures ParseHeight("-1") == None
    ensures ParseHeight("12a") == None
    ensures ParseHeight("") == None
  {
    assert '-' in "-1";
    assert 'a' in "12a";
  }

  /** A height shown with thousands separators reads back as that height. */
  lemma ParseFormattedHeight(n: nat)
    requires n <= U32_MAX
    ensures ParseHeight(Util.Thousands(NatToString(n))) == Some(n)
  {
    var s := NatToString(n);
    Util.ThousandsRemoveCommas(s);
    RemoveCommasNoop(s);
    ParseU32OfNatToString(n);
  }

  /** The `<` button: present iff the height parses and is at least 1, sending the height below. */
  function PrevButton(current: Option<nat>): (press: Option<NodeMessage>)
    ensures press.Some? <==> current.Some? && current.value >= 1
    ensures press.Some? ==> press.value.BlockExplorerHeightUpdate? && press.value.height + 1 == current.value
  {
    match current
    case Some(h) => if h >= 1 then Some(BlockExplorerHeightUpdate(h - 1)) else None
    case None => None
  }

  /** The `>` button: present iff the height parses and is below `u32::MAX`, sending the height above. */
  function NextButton(current: Option<nat>): (press: Option<NodeMessage>)
    requires current.Some? ==> current.value <= U32_MAX
    ensures press.Some? <==> current.Some? && current.value < U32_MAX
    ensures press.Some? ==> press.value.BlockExplorerHeightUpdate? && press.value.height == current.value + 1
    ensures press.Some? ==> press.value.height <= U32_MAX
  {
    match current
    case Some(h) => if h < U32_MAX then Some(BlockExplorerHeightUpdate(h + 1)) else None
    case None => None
  }

  /** Stepping back and then forward, or forward and then back, returns to the typed height. */
  lemma StepsUndoEachOther(h: nat)
    requires h <= U32_MAX
    ensures 1 <= h ==> NextButton(Some(h - 1)) == Some(BlockExplorerHeightUpdate(h))
    ensures h < U32_MAX ==> PrevButton(Some(h + 1)) == Some(BlockExplorerHeightUpdate(h))
  {
  }

  // ---------------------------------------------------------------------------
  // Size unit

  datatype SizeUnit = Bytes | Kilobytes | Megabytes

  function UnitRank(u: SizeUnit): nat {
    match u
    case Bytes => 0
    case Kilobytes => 1
    case Megabytes => 2
  }

  /** The unit a serialised size is shown in. */
  function SizeUnitOf(bytes: nat): (u: SizeUnit)
    ensures u == Bytes <==> bytes < 1000
    ensures u == Megabytes <==> bytes >= 1000000
  {
    if bytes < 1000 then Bytes else if bytes < 1000000 then Kilobytes else Megabytes
  }

  /** A larger block never takes a smaller unit, and every unit starts at its threshold. */
  lemma SizeUnitMonotone(a: nat, b: nat)
    requires a <= b
    ensures UnitRank(SizeUnitOf(a)) <= UnitRank(SizeUnitOf(b))
    ensures SizeUnitOf(999) == Bytes && SizeUnitOf(1000) == Kilobytes
    ensures SizeUnitOf(999999) == Kilobytes && SizeUnitOf(1000000) == Megabytes
  {
  }

  /** The size text of a block under 1000 bytes: its byte count, then ` BYTES`. */
  function BytesText(bytes: nat): (text: Option<string>)
    ensures text.Some? <==> SizeUnitOf(bytes) == Bytes
    ensures text.Some? ==> |text.value| <= 9
  {
    if SizeUnitOf(bytes) == Bytes then
      BytesDigits(bytes);
      Some(NatToString(bytes) + " BYTES")
    else None
  }

  lemma BytesDigits(n: nat)
    requires n < 1000
    ensures |NatToString(n)| <= 3
  {
    if n >= 10 {
      assert NatToString(n) == NatToString(n / 10) + [DigitChar(n % 10)];
      BytesDigits(n / 10);
    }
  }

  // ---------------------------------------------------------------------------
  // Total moved

  /** The sum of a transaction's output values. */
  function OutputSum(values: seq<nat>): nat {
    if values == [] then 0 else OutputSum(values[..|values| - 1]) + values[|values| - 1]
  }

  /** The per-transaction output sums, added up. */
  function MovedSum(txs: seq<Transaction>): nat {
    if txs == [] then 0 else MovedSum(txs[..|txs| - 1]) + OutputSum(txs[|txs| - 1].outputs)
  }

  /** The output values of every transaction, one after the other. */
  function AllOutputs(txs: seq<Transaction>): seq<nat> {
    if txs == [] then [] else AllOutputs(txs[..|txs| - 1]) + txs[|txs| - 1].outputs
  }

  lemma {:induction false} OutputSumAppend(a: seq<nat>, b: seq<nat>)
    ensures OutputSum(a + b) == OutputSum(a) + OutputSum(b)
    decreases |b|
  {
    if b != [] {
      assert (a + b)[..|a + b| - 1] == a + b[..|b| - 1];
      OutputSumAppend(a, b[..|b| - 1]);
    } else {
      assert a + b == a;
    }
  }

  /** Summing per transaction and then over the block counts every output of the block exactly once. */
  lemma {:induction false} MovedSumIsSumOfAllOutputs(txs: seq<Transaction>)
    ensures MovedSum(txs) == OutputSum(AllOutputs(txs))
  {
    if txs != [] {
      MovedSumIsSumOfAllOutputs(txs[..|txs| - 1]);
      OutputSumAppend(AllOutputs(txs[..|txs| - 1]), txs[|txs| - 1].outputs);
    }
  }

  /** The accumulation loop over the block's transactions and their outputs. */
  method TotalMoved(block: Block) returns (total: nat)
    ensures total == MovedSum(block.txdata)
  {
    var txs := block.txdata;
    total := 0;
    for i := 0 to |txs|
      invariant total == MovedSum(txs[..i])
    {
      var outs := txs[i].outputs;
      var outputSum := 0;
      for j := 0 to |outs|
        invariant outputSum == OutputSum(outs[..j])
      {
        assert outs[..j + 1][..j] == outs[..j];
        outputSum := outputSum + outs[j];
      }
      assert outs[..|outs|] == outs;
      assert txs[..i + 1][..i] == txs[..i];
      total := total + outputSum;
    }
    assert txs[..|txs|] == txs;
  }

  // ---------------------------------------------------------------------------
  // Latest blocks and transaction rows

  const LATEST_SHOWN: nat := 5

  /** An entry of the latest-blocks list: its height label, transaction count, size unit and press action. */
  datatype LatestEntry = LatestEntry(heightText: string, txCount: nat, unit: SizeUnit, press: NodeMessage)

  /** The height a block declares in its coinbase, or 0. */
  function DeclaredHeight(b: Block): nat {
    b.bip34Height.GetOr(0)
  }

  /** One entry of the latest-blocks list. */
  function EntryFor(b: Block): (e: LatestEntry)
    ensures |e.heightText| >= 7 && e.heightText[..6] == "BLOCK "
    ensures e.txCount == |b.txdata| && e.unit == SizeUnitOf(b.sizeBytes)
    ensures e.press == BlockExplorerHeightUpdate(DeclaredHeight(b))
  {
    LatestEntry("BLOCK " + Util.Thousands(NatToString(DeclaredHeight(b))), |b.txdata|, SizeUnitOf(b.sizeBytes),
                BlockExplorerHeightUpdate(DeclaredHeight(b)))
  }

  /** The latest-blocks list: the first five blocks, in order. */
  method LatestEntries(blocks: seq<Block>) returns (entries: seq<LatestEntry>)
    ensures |entries| == Min(LATEST_SHOWN, |blocks|)
    ensures forall i | 0 <= i < |entries| :: entries[i] == EntryFor(blocks[i])
  {
    entries := [];
    for i := 0 to Min(LATEST_SHOWN, |blocks|)
      invariant |entries| == i
      invariant forall j | 0 <= j < i :: entries[j] == EntryFor(blocks[j])
    {
      entries := entries + [EntryFor(blocks[i])];
    }
  }

  /** Pressing an entry opens the block at the height its label shows. */
  lemma EntryLabelMatchesPress(b: Block)
    requires DeclaredHeight(b) <= U32_MAX
    ensures var e := EntryFor(b);
            |e.heightText| >= 6 && e.press == BlockExplorerHeightUpdate(DeclaredHeight(b))
            && ParseHeight(e.heightText[6..]) == Some(DeclaredHeight(b))
  {
    var e := EntryFor(b);
    assert e.heightText[6..] == Util.Thousands(NatToString(DeclaredHeight(b)));
    ParseFormattedHeight(DeclaredHeight(b));
  }

  /** A transaction row: its toggle action and whether its details are shown. */
  datatype TxRow = TxRow(press: NodeMessage, expanded: bool)

  /** The transaction rows of the current block, each toggling its own index; only the selected one expands. */
  method TransactionRows(current: Option<Block>, expandedIdx: Option<nat>) returns (rows: seq<TxRow>)
    ensures current.None? ==> rows == []
    ensures current.Some? ==> |rows| == |current.value.txdata|
    ensures forall i | 0 <= i < |rows| ::
      rows[i].press == ToggleTransactionExpandedIdx(i) && (rows[i].expanded <==> expandedIdx == Some(i))
    ensures forall i, j | 0 <= i < |rows| && 0 <= j < |rows| && rows[i].expanded && rows[j].expanded :: i == j
  {
    rows := [];
    if current.Some? {
      for idx := 0 to |current.value.txdata|
        invariant |rows| == idx
        invariant forall i | 0 <= i < idx ::
          rows[i].press == ToggleTransactionExpandedIdx(i) && (rows[i].expanded <==> expandedIdx == Some(i))
      {
        rows := rows + [TxRow(ToggleTransactionExpandedIdx(idx), expandedIdx == Some(idx))];
      }
    }
  }

  // ---------------------------------------------------------------------------
  // Subsidy of the shown block

  /** The subsidy shown for the current block: computed from the typed height (0 if it does not parse). */
  function ShownSubsidy(input: string, current: Option<Block>): (sats: Option<nat>)
    ensures sats.Some? <==> current.Some?
    ensures current.Some? ==> sats == Some(GetBlockSubsidy(ParseHeight(input).GetOr(0)))
  {
    if current.None? then None else Some(GetBlockSubsidy(ParseHeight(input).GetOr(0)))
  }

  /**
   * The subsidy shown does not depend on the block itself, only on the text
   * in the height field: a height that parses shows that height's subsidy,
   * text that does not parse shows the first era's 50 BTC.
   */
  lemma ShownSubsidyIgnoresBlock(input: string, b1: Block, b2: Block)
    ensures ShownSubsidy(input, Some(b1)) == ShownSubsidy(input, Some(b2))
    ensures ParseHeight(input).None? ==> ShownSubsidy(input, Some(b1)) == Some(INITIAL_SUBSIDY)
    ensures ParseHeight(input).Some? ==>
      ShownSubsidy(input, Some(b1)) == Some(GetBlockSubsidy(ParseHeight(input).value))
  {
  }
}
