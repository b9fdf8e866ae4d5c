/**
 * The circular index space of the catalog (src/image_loader.rs and
 * src/state.rs): ring distance, wrapping navigation, the "last entry" test
 * and the preload plan built around the current position. Everything here
 * is pure integer arithmetic over the catalog length `len`.
 */
module Navigation {
  import opened Wrappers
  import opened Utils
  import opened SeqFacts

  /**
   * `index_distance`: 0 for equal indices; otherwise the forward gap between
   * the two indices if it is at most half the ring, else the way round
   * (`len - high + low`).
   */
  function IndexDistance(len: nat, a: nat, b: nat): (d: int)
    ensures a == b ==> d == 0
    ensures a < len && b < len ==> (d == 0 <==> a == b) && 0 <= d <= len / 2
  {
    if a == b then 0
    else
      var (high, low) := if a > b then (a, b) else (b, a);
      var forward := high - low;
      if forward <= len / 2 then forward else len - high + low
  }

  /** The ring distance as usually defined: the shorter of the two ways round. */
  function RingDistance(len: nat, a: nat, b: nat): nat
    requires a < len && b < len
  {
    var gap := Abs(a - b);
    if gap <= len - gap then gap else len - gap
  }

  /** Within the catalog, `index_distance` is the shorter way round the ring. */
  lemma IndexDistanceIsRingDistance(len: nat, a: nat, b: nat)
    requires a < len && b < len
    ensures IndexDistance(len, a, b) == RingDistance(len, a, b)
  {
  }

  lemma IndexDistanceSymmetric(len: nat, a: nat, b: nat)
    ensures IndexDistance(len, a, b) == IndexDistance(len, b, a)
  {
  }

  /** The worked example of the source comment: len 10, indices 7 and 1 are 4 apart. */
  lemma IndexDistanceExample()
    ensures IndexDistance(10, 7, 1) == 4
  {
  }

  /**
   * `get_next_index`: no move on a catalog of at most one entry; otherwise
   * `current + amount`, wrapped with `modulo` when it leaves [0, len).
   */
  function GetNextIndex(len: nat, current: nat, amount: int): (r: Option<nat>)
    ensures r.None? <==> len <= 1
    ensures r.Some? ==> r.value < len && r.value == (current + amount) % len
    ensures r.Some? && 0 <= current + amount < len ==> r.value == current + amount
  {
    if len <= 1 then None
    else
      var index := current + amount;
      if index < 0 || index >= len then
        ModuloIsEuclidean(index, len);
        Some(Modulo(index, len))
      else
        ModUnique(index, len, 0, index);
        Some(index)
  }

  /** Stepping back from the first entry lands on the last one. */
  lemma GetNextIndexWrapsBackward()
    ensures GetNextIndex(10, 0, -1) == Some(9)
  {
    ModuloIsEuclidean(-1, 10);
  }

  /** Moving back by the same amount undoes a move, wrap-around included. */
  lemma GetNextIndexUndo(len: nat, current: nat, amount: int)
    requires len > 1 && current < len
    ensures GetNextIndex(len, current, amount).Some?
    ensures GetNextIndex(len, GetNextIndex(len, current, amount).value, -amount) == Some(current)
  {
    var r := GetNextIndex(len, current, amount).value;
    var q := (current + amount) / len;
    assert current + amount == q * len + r;
    assert r - amount == (-q) * len + current;
    ModUnique(r - amount, len, -q, current);
  }

  /**
   * `is_last` as written: `current_index == len - 1` with a usize
   * subtraction. On an empty catalog `len - 1` overflows, modelled as `None`
   * (a panic where overflow checks are enabled).
   */
  function IsLastAsWritten(len: nat, current: nat): Option<bool>
  {
    if len == 0 then None else Some(current == len - 1)
  }

  /** The empty catalog is the input on which the written subtraction overflows. */
  lemma IsLastOverflowsOnEmpty(current: nat)
    ensures IsLastAsWritten(0, current).None?
  {
  }

  /** `is_last` with the empty catalog answered by "no". */
  function IsLast(len: nat, current: nat): (last: bool)
    ensures last <==> len > 0 && current + 1 == len
    ensures len > 0 ==> IsLastAsWritten(len, current) == Some(last)
  {
    len > 0 && current == len - 1
  }

  /** `last_image` as written: `len - 1`, overflowing (`None`) on an empty catalog. */
  function LastIndexAsWritten(len: nat): Option<nat>
  {
    if len == 0 then None else Some(len - 1)
  }

  lemma LastIndexOverflowsOnEmpty()
    ensures LastIndexAsWritten(0).None?
  {
  }

  /** The index `last_image` selects, staying at 0 on an empty catalog. */
  function LastIndex(len: nat): (i: nat)
    ensures len > 0 ==> i < len && IsLast(len, i)
    ensures len > 0 ==> LastIndexAsWritten(len) == Some(i)
    ensures len == 0 ==> i == 0
  {
    if len == 0 then 0 else len - 1
  }

  function OptionToSeq(o: Option<nat>): seq<nat>
  {
    if o.Some? then [o.value] else []
  }

  /**
   * The preload queue that `get_current` builds around `current`:
   * `next(+1), next(-1), next(+2), next(-2), ..., next(+extent), next(-extent)`,
   * each step omitted when `get_next_index` gives `None`.
   */
  function PreloadPlan(len: nat, current: nat, extent: nat): (plan: seq<nat>)
    ensures |plan| <= 2 * extent
    ensures len <= 1 ==> plan == []
  {
    if extent == 0 then []
    else
      PreloadPlan(len, current, extent - 1)
      + OptionToSeq(GetNextIndex(len, current, extent))
      + OptionToSeq(GetNextIndex(len, current, -(extent as int)))
  }

  /** Extending the extent by one appends the forward and then the backward neighbour at that distance. */
  lemma PreloadPlanStep(len: nat, current: nat, extent: nat)
    requires extent > 0
    ensures PreloadPlan(len, current, extent)
      == PreloadPlan(len, current, extent - 1)
         + OptionToSeq(GetNextIndex(len, current, extent))
         + OptionToSeq(GetNextIndex(len, current, -(extent as int)))
  {
  }

  /**
   * A reference definition of the plan on a catalog of more than one entry:
   * round `d` appends `current + d` and then `current - d`, both reduced
   * into [0, len).
   */
  function AlternatingNeighbours(len: nat, current: nat, extent: nat): seq<int>
    requires len > 0
  {
    if extent == 0 then []
    else AlternatingNeighbours(len, current, extent - 1) + [(current + extent) % len, (current as int - extent) % len]
  }

  /** Entry `2k` of the reference plan is `current + (k + 1)` and entry `2k + 1` is `current - (k + 1)`, wrapped. */
  lemma {:induction false} AlternatingNeighboursShape(len: nat, current: nat, extent: nat)
    requires len > 0
    ensures |AlternatingNeighbours(len, current, extent)| == 2 * extent
    ensures forall k :: 0 <= k < |AlternatingNeighbours(len, current, extent)| ==>
      AlternatingNeighbours(len, current, extent)[k] ==
        (if k % 2 == 0 then (current + (k / 2 + 1)) % len else (current as int - (k / 2 + 1)) % len)
  {
    if extent > 0 {
      AlternatingNeighboursShape(len, current, extent - 1);
      var prev := AlternatingNeighbours(len, current, extent - 1);
      var plan := AlternatingNeighbours(len, current, extent);
      forall k | 0 <= k < |plan|
        ensures plan[k] == (if k % 2 == 0 then (current + (k / 2 + 1)) % len else (current as int - (k / 2 + 1)) % len)
      {
        if k < |prev| {
          assert plan[k] == prev[k];
        } else {
          Halves(extent - 1);
        }
      }
    }
  }

  /** On a catalog of more than one entry the preload plan is the reference plan. */
  lemma {:induction false} PreloadPlanIsAlternating(len: nat, current: nat, extent: nat)
    requires len > 1
    ensures PreloadPlan(len, current, extent) == AlternatingNeighbours(len, current, extent)
  {
    if extent > 0 {
      PreloadPlanIsAlternating(len, current, extent - 1);
      PreloadPlanGrows(len, current, extent);
    }
  }

  /**
   * Otherwise the plan has `2 * extent` entries, alternating forward and
   * backward at growing distance: entry `2k` is `current + (k + 1)` and entry
   * `2k + 1` is `current - (k + 1)`, both wrapped into [0, len). Entries may
   * repeat once the extent reaches half the ring.
   */
  lemma PreloadPlanShape(len: nat, current: nat, extent: nat)
    requires len > 1
    ensures |PreloadPlan(len, current, extent)| == 2 * extent
    ensures forall k :: 0 <= k < |PreloadPlan(len, current, extent)| ==>
      PreloadPlan(len, current, extent)[k] ==
        (if k % 2 == 0 then (current + (k / 2 + 1)) % len else (current as int - (k / 2 + 1)) % len)
  {
    PreloadPlanIsAlternating(len, current, extent);
    AlternatingNeighboursShape(len, current, extent);
  }

  /** On a catalog of more than one entry each loop round appends both neighbours at that distance, wrapped. */
  lemma PreloadPlanGrows(len: nat, current: nat, extent: nat)
    requires len > 1 && extent > 0
    ensures PreloadPlan(len, current, extent)
      == PreloadPlan(len, current, extent - 1) + [(current + extent) % len, (current as int - extent) % len]
  {
    PreloadPlanStep(len, current, extent);
    assert OptionToSeq(GetNextIndex(len, current, extent)) == [(current + extent) % len];
    assert OptionToSeq(GetNextIndex(len, current, -(extent as int))) == [(current as int - extent) % len];
    AppendPair(PreloadPlan(len, current, extent - 1), (current + extent) % len, (current as int - extent) % len);
  }

  lemma Halves(m: nat)
    ensures (2 * m) % 2 == 0 && (2 * m) / 2 == m
    ensures (2 * m + 1) % 2 == 1 && (2 * m + 1) / 2 == m
  {
  }

  /** Every planned index lies inside the catalog. */
  lemma PreloadPlanInRange(len: nat, current: nat, extent: nat)
    ensures forall k :: 0 <= k < |PreloadPlan(len, current, extent)| ==> PreloadPlan(len, current, extent)[k] < len
  {
    if len > 1 {
      PreloadPlanShape(len, current, extent);
    }
  }

  /** The worked example: position 5 of 10 with extent 2 plans 6, 4, 7, 3. */
  lemma PreloadPlanExample()
    ensures PreloadPlan(10, 5, 2) == [6, 4, 7, 3]
  {
  }
}
