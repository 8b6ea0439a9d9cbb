/**
 * `src/node/utreexo/view.rs`: the accumulator statistics and the placement of
 * the Utreexo roots into 32 slots, one per bit of the leaf count. A forest of
 * `n` leaves has one tree per set bit of `n`, so the roots, listed from the
 * smallest tree up, go to the set-bit slots in ascending order.
 *
 * A root is represented by its hexadecimal text.
 */
module UtreexoView {
  import opened Common
  import Statistics
  import Util

  const NUM_SLOTS: nat := 32
  const U32_MODULUS: nat := 0x1_0000_0000

  /** `statistics.accumulator.leaves as u32`, or 0 without statistics. */
  function NumLeaves(stats: Option<Statistics.NodeStatistics>): (n: nat)
    ensures n < U32_MODULUS
    ensures stats.None? ==> n == 0
    ensures stats.Some? && stats.value.accumulator.leaves < U32_MODULUS ==> n == stats.value.accumulator.leaves
    ensures stats.Some? ==> (stats.value.accumulator.leaves - n) % U32_MODULUS == 0
  {
    match stats
    case None => 0
    case Some(s) => s.accumulator.leaves % U32_MODULUS
  }

  /** The number of roots, or 0 without statistics. */
  function NumRoots(stats: Option<Statistics.NodeStatistics>): nat {
    match stats
    case None => 0
    case Some(s) => |s.accumulator.roots|
  }

  /** The accumulator size text: 32 bytes per root, grouped in thousands, then ` BYTES`. */
  function SizeText(stats: Option<Statistics.NodeStatistics>): (text: string)
    ensures |text| >= 6 && text[|text| - 6..] == " BYTES"
    ensures RemoveCommas(text[..|text| - 6]) == NatToString(32 * NumRoots(stats))
  {
    var digits := Util.Thousands(NatToString(32 * NumRoots(stats)));
    Util.ThousandsRemoveCommas(NatToString(32 * NumRoots(stats)));
    RemoveCommasNoop(NatToString(32 * NumRoots(stats)));
    var text := digits + " BYTES";
    assert text[..|text| - 6] == digits;
    text
  }

  /** The number of set bits of `n` below bit `i`: how many roots belong to smaller trees. */
  function Rank(n: nat, i: nat): (r: nat)
    ensures r <= i
  {
    if i == 0 then 0 else Rank(n, i - 1) + (if HasBit(n, i - 1) then 1 else 0)
  }

  /** What slot `i` holds: the next root if bit `i` is set and roots remain, otherwise nothing. */
  function Slot(n: nat, roots: seq<string>, i: nat): Option<string> {
    if HasBit(n, i) && Rank(n, i) < |roots| then Some(roots[Rank(n, i)]) else None
  }

  /**
   * The placement loop: 32 empty slots; with statistics, each set bit of the
   * leaf count, lowest first, takes the next root while roots remain.
   */
  method RootsInPosition(numLeaves: nat, roots: Option<seq<string>>) returns (placed: seq<Option<string>>)
    ensures |placed| == NUM_SLOTS
    ensures roots.None? ==> forall i | 0 <= i < NUM_SLOTS :: placed[i].None?
    ensures roots.Some? ==> forall i | 0 <= i < NUM_SLOTS :: placed[i] == Slot(numLeaves, roots.value, i)
  {
    var slots := new Option<string>[NUM_SLOTS](_ => None);
    if roots.Some? {
      var rs := roots.value;
      var next := 0;
      for idx := 0 to NUM_SLOTS
        invariant next == Min(Rank(numLeaves, idx), |rs|)
        invariant forall j | 0 <= j < idx :: slots[j] == Slot(numLeaves, rs, j)
        invariant forall j | idx <= j < NUM_SLOTS :: slots[j].None?
      {
        if HasBit(numLeaves, idx) {
          if next < |rs| {
            slots[idx] := Some(rs[next]);
            next := next + 1;
          }
        }
      }
    }
    placed := slots[..];
  }

  /** A slot holds a root only where the leaf count has a set bit. */
  lemma SlotOnlyAtSetBits(n: nat, roots: seq<string>, i: nat)
    requires Slot(n, roots, i).Some?
    ensures HasBit(n, i)
  {
  }

  /** The roots an optional slot contributes when read. */
  function Contents(slot: Option<string>): seq<string> {
    if slot.Some? then [slot.value] else []
  }

  /** The roots that are present, read from slot 0 upwards. */
  function Present(slots: seq<Option<string>>): seq<string> {
    if slots == [] then []
    else Present(slots[..|slots| - 1]) + Contents(slots[|slots| - 1])
  }

  /** The first `k` slots. */
  function Slots(n: nat, roots: seq<string>, k: nat): (s: seq<Option<string>>)
    ensures |s| == k
    ensures forall i | 0 <= i < k :: s[i] == Slot(n, roots, i)
  {
    seq(k, i requires 0 <= i => Slot(n, roots, i))
  }

  /**
   * Reading the slots in order gives back the roots in their own order: the
   * first `min(|roots|, set bits)` of them, nothing skipped, nothing repeated.
   */
  lemma {:induction false} PresentIsPrefix(n: nat, roots: seq<string>, k: nat)
    ensures Present(Slots(n, roots, k)) == roots[..Min(Rank(n, k), |roots|)]
  {
    if k > 0 {
      PresentIsPrefix(n, roots, k - 1);
      PresentStep(n, roots, k);
      PrefixStep(n, roots, k);
    }
  }

  /** Reading one more slot appends what it holds. */
  lemma PresentStep(n: nat, roots: seq<string>, k: nat)
    requires k > 0
    ensures Present(Slots(n, roots, k)) == Present(Slots(n, roots, k - 1)) + Contents(Slot(n, roots, k - 1))
  {
    var s := Slots(n, roots, k);
    assert s[..k - 1] == Slots(n, roots, k - 1);
  }

  /** One more bit position extends the prefix of placed roots by what its slot holds. */
  lemma PrefixStep(n: nat, roots: seq<string>, k: nat)
    requires k > 0
    ensures roots[..Min(Rank(n, k), |roots|)] == roots[..Min(Rank(n, k - 1), |roots|)] + Contents(Slot(n, roots, k - 1))
  {
    var r := Rank(n, k - 1);
    if HasBit(n, k - 1) && r < |roots| {
      assert roots[..r] + [roots[r]] == roots[..r + 1];
    }
  }

  /** When there is one root per set bit, as in a well-formed accumulator, every set-bit slot is filled. */
  lemma WellFormedFillsSetBits(n: nat, roots: seq<string>, i: nat)
    requires |roots| == Rank(n, NUM_SLOTS)
    requires i < NUM_SLOTS && HasBit(n, i)
    ensures Rank(n, i) < |roots| && Slot(n, roots, i) == Some(roots[Rank(n, i)])
  {
    RankIncreasing(n, i + 1, NUM_SLOTS);
  }

  /** Rank grows with the bit position. */
  lemma {:induction false} RankIncreasing(n: nat, i: nat, j: nat)
    requires i <= j
    ensures Rank(n, i) <= Rank(n, j)
    decreases j - i
  {
    if i < j {
      RankIncreasing(n, i, j - 1);
    }
  }

  /** With fewer roots than set bits, the highest set-bit slots stay empty. */
  lemma MissingRootsLeaveHighSlotsEmpty(n: nat, roots: seq<string>, i: nat)
    requires Rank(n, i) >= |roots|
    ensures Slot(n, roots, i).None?
  {
  }

  // ---------------------------------------------------------------------------
  // Roots grid

  /** A root's hexadecimal text. */
  predicate IsHexText(s: string) {
    forall i | 0 <= i < |s| :: IsLowerHex(s[i])
  }

  /** The text of a root cell: the hex split onto two lines after 32 characters, or `NULL` for an empty slot. */
  function RootCell(slot: Option<string>): (text: string)
    requires slot.Some? ==> |slot.value| >= 32
    ensures slot.None? ==> text == "NULL"
    ensures slot.Some? ==> |text| == |slot.value| + 1 && text[32] == '\n'
    ensures slot.Some? ==> text[..32] == slot.value[..32] && text[33..] == slot.value[32..]
    ensures slot.Some? && IsHexText(slot.value) ==> RemoveNewline(text) == slot.value
  {
    match slot
    case None => "NULL"
    case Some(hex) =>
      var text := hex[..32] + "\n" + hex[32..];
      if IsHexText(hex) then
        RemoveNewlineAfter(hex[..32], hex[32..]);
        assert hex[..32] + hex[32..] == hex;
        text
      else
        text
  }

  /** The text with its first newline removed. */
  function RemoveNewline(s: string): string {
    if s == [] then [] else if s[0] == '\n' then s[1..] else [s[0]] + RemoveNewline(s[1..])
  }

  /** Removing the newline inserted after a newline-free prefix rejoins the two parts. */
  lemma {:induction false} RemoveNewlineAfter(a: string, b: string)
    requires '\n' !in a
    ensures RemoveNewline(a + "\n" + b) == a + b
  {
    var t := a + "\n" + b;
    if a == [] {
      assert t == "\n" + b;
      assert t[1..] == b;
    } else {
      assert a[0] in a;
      assert t[0] == a[0] && t[0] != '\n';
      assert t[1..] == a[1..] + "\n" + b;
      assert '\n' !in a[1..] by {
        forall c | c in a[1..] ensures c in a { }
      }
      RemoveNewlineAfter(a[1..], b);
      assert RemoveNewline(t) == [a[0]] + RemoveNewline(t[1..]);
      assert [a[0]] + (a[1..] + b) == a + b;
    }
  }

  /** A grid row: the left index and slot, the right index and slot. */
  datatype GridRow = GridRow(leftIdx: string, left: string, rightIdx: string, right: string)

  /** Row `i` of the 16-row grid shows slots `i` and `i + 16`, with two-digit indices. */
  method RootsGrid(placed: seq<Option<string>>) returns (rows: seq<GridRow>)
    requires |placed| == NUM_SLOTS
    requires forall i | 0 <= i < NUM_SLOTS :: placed[i].Some? ==> |placed[i].value| >= 32
    ensures |rows| == 16
    ensures forall i | 0 <= i < 16 ::
      rows[i] == GridRow(Pad2(i), RootCell(placed[i]), Pad2(i + 16), RootCell(placed[i + 16]))
  {
    rows := [];
    for idx := 0 to 16
      invariant |rows| == idx
      invariant forall i | 0 <= i < idx ::
        rows[i] == GridRow(Pad2(i), RootCell(placed[i]), Pad2(i + 16), RootCell(placed[i + 16]))
    {
      rows := rows + [GridRow(Pad2(idx), RootCell(placed[idx]), Pad2(idx + 16), RootCell(placed[idx + 16]))];
    }
  }
}
