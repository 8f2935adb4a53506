/** Speed selections: the choice tables the pan/tilt and zoom speeds are
    chosen from, the search for an id in a table, and the saturating steps
    the speed-up and speed-down actions take through them. */
module Speed {

  /** One entry of a dropdown choice table: the id sent or parsed, and the
      label shown. */
  datatype Choice = Choice(id: string, text: string)

  /** The pan/tilt speed table has at least this many entries... */
  const PtSpeedTableMin: nat := 24
  /** ...and stepping stays within its first 24. */
  const PtSpeedTopIndex: nat := 23

  /** The zoom speed table has at least this many entries... */
  const ZoomSpeedTableMin: nat := 8
  /** ...stepping up stops at index 7 and stepping down holds at index 1. */
  const ZoomSpeedTopIndex: nat := 7
  const ZoomSpeedFloorIndex: nat := 1

  /** Reference definition of the search: the first position holding `id`,
      or -1 when no entry has it. */
  function FirstIndexOf(table: seq<Choice>, id: string): (r: int)
    ensures -1 <= r < |table|
    ensures r == -1 <==> forall j | 0 <= j < |table| :: table[j].id != id
    ensures r >= 0 ==> table[r].id == id && forall j | 0 <= j < r :: table[j].id != id
  {
    if table == [] then -1
    else if table[0].id == id then 0
    else
      var r := FirstIndexOf(table[1..], id);
      if r == -1 then -1 else r + 1
  }

  /** The `for` loop of the speed-set actions: scan the table from the start
      and stop at the first entry whose id equals `id`; -1 when none does. */
  method FindChoice(table: seq<Choice>, id: string) returns (idx: int)
    ensures idx == FirstIndexOf(table, id)
    ensures idx >= 0 ==> table[idx].id == id
  {
    idx := -1;
    var i := 0;
    while i < |table|
      invariant 0 <= i <= |table|
      invariant forall j | 0 <= j < i :: table[j].id != id
    {
      if table[i].id == id {
        idx := i;
        break;
      }
      i := i + 1;
    }
  }

  /** `ptSpeedU`: hold at 23, otherwise move up one below 23. */
  function PtStepUp(i: nat): nat {
    if i == PtSpeedTopIndex then PtSpeedTopIndex
    else if i < PtSpeedTopIndex then i + 1
    else i
  }

  /** `ptSpeedD`: hold at 0, otherwise move down one. */
  function PtStepDown(i: nat): nat {
    if i == 0 then 0 else i - 1
  }

  /** `zoomSpeedU`: hold at 7, otherwise move up one below 7. */
  function ZoomStepUp(i: nat): nat {
    if i == ZoomSpeedTopIndex then ZoomSpeedTopIndex
    else if i < ZoomSpeedTopIndex then i + 1
    else i
  }

  /** `zoomSpeedD`: hold at 1, otherwise move down one while above 0. */
  function ZoomStepDown(i: nat): nat {
    if i == ZoomSpeedFloorIndex then ZoomSpeedFloorIndex
    else if i > 0 then i - 1
    else i
  }

  /** One step never moves more than one place, never in the wrong direction,
      and never leaves the range it starts in: [0, 23] for pan/tilt, [0, 7]
      and [1, 7] for zoom. */
  lemma StepsStayInRange(i: nat)
    ensures i <= PtStepUp(i) <= i + 1 && (i <= 23 ==> PtStepUp(i) <= 23)
    ensures i - 1 <= PtStepDown(i) <= i && PtStepDown(i) >= 0
    ensures i <= ZoomStepUp(i) <= i + 1 && (i <= 7 ==> ZoomStepUp(i) <= 7)
    ensures i - 1 <= ZoomStepDown(i) <= i && (i >= 1 ==> ZoomStepDown(i) >= 1)
    ensures i <= 7 ==> ZoomStepDown(i) <= 7
  {
  }

  /** `step` applied `n` times. */
  function Repeat(step: nat -> nat, n: nat, i: nat): nat {
    if n == 0 then i else Repeat(step, n - 1, step(i))
  }

  /** Pressing pan/tilt speed-up n times from an index in [0, 23] lands on
      min(i + n, 23): saturating, not wrapping. */
  lemma {:induction false} PtStepUpSaturates(i: nat, n: nat)
    requires i <= PtSpeedTopIndex
    ensures Repeat(PtStepUp, n, i) == if i + n <= 23 then i + n else 23
    decreases n
  {
    if n > 0 {
      PtStepUpSaturates(PtStepUp(i), n - 1);
    }
  }

  /** Pressing pan/tilt speed-down n times lands on max(i - n, 0). */
  lemma {:induction false} PtStepDownSaturates(i: nat, n: nat)
    ensures Repeat(PtStepDown, n, i) == if i >= n then i - n else 0
    decreases n
  {
    if n > 0 {
      PtStepDownSaturates(PtStepDown(i), n - 1);
    }
  }

  /** Pressing zoom speed-up n times from an index in [0, 7] lands on
      min(i + n, 7). */
  lemma {:induction false} ZoomStepUpSaturates(i: nat, n: nat)
    requires i <= ZoomSpeedTopIndex
    ensures Repeat(ZoomStepUp, n, i) == if i + n <= 7 then i + n else 7
    decreases n
  {
    if n > 0 {
      ZoomStepUpSaturates(ZoomStepUp(i), n - 1);
    }
  }

  /** Pressing zoom speed-down n times from index i > 0 lands on
      max(i - n, 1); from index 0 it stays at 0. */
  lemma {:induction false} ZoomStepDownSaturates(i: nat, n: nat)
    ensures Repeat(ZoomStepDown, n, i) == if i == 0 then 0 else if i - n >= 1 then i - n else 1
    decreases n
  {
    if n > 0 {
      ZoomStepDownSaturates(ZoomStepDown(i), n - 1);
    }
  }
}
