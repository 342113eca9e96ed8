/**
 Environment identifiers (kern/env.c:206-265): the ids a slot gets, one allocation after the other,
 and when they repeat.
 */
module EnvIds {
  import opened Environments

  const ENVGEN: int := 4096           // 1 << ENVGENSHIFT
  /** Number of generations before the 31-bit counter starts again: 2^19 - 1. */
  const PERIOD: int := 0x7FFFF

  /** A 32-bit two's complement addition. */
  function Add32(x: int, y: int): int {
    var s := (x + y) % 0x1_0000_0000;
    if s < 0x8000_0000 then s else s - 0x1_0000_0000
  }

  /** The id env_alloc gives to slot `slot` when the slot last had `prev` (0 at first). */
  function NextId(prev: int, slot: int): int
  {
    var sum := Add32(prev, ENVGEN);
    var generation := sum - sum % NENV;       // & ~(NENV - 1)
    (if generation <= 0 then ENVGEN else generation) + slot
  }

  /** The id of slot `slot` after k allocations. */
  function IdAfter(slot: int, k: nat): int {
    if k == 0 then 0 else NextId(IdAfter(slot, k - 1), slot)
  }

  /** Whatever the slot held before, the new id is positive and carries the slot. */
  lemma NextIdCarriesSlot(prev: int, slot: int)
    requires 0 <= slot < NENV
    ensures 0 < NextId(prev, slot) < 0x8000_0000 && NextId(prev, slot) % NENV == slot
  {
  }

  /** The id after `prev`, when the 32-bit sum does not reach the sign bit. */
  lemma NextBelow(prev: int, slot: int, q: int)
    requires 0 <= slot < NENV && 0 < q && prev + ENVGEN == NENV * q + slot < 0x8000_0000
    ensures NextId(prev, slot) == NENV * q + slot
  {
  }

  /** The id after `prev`, when the 32-bit sum turns negative. */
  lemma NextWraps(prev: int, slot: int)
    requires 0x8000_0000 <= prev + ENVGEN < 0x1_0000_0000
    ensures NextId(prev, slot) == ENVGEN + slot
  {
  }

  /** One allocation: the generation grows by one, and starts again before the sign bit is reached. */
  lemma NextGeneration(g: int, slot: int)
    requires 0 <= slot < NENV && 0 < g <= PERIOD
    ensures NextId(ENVGEN * g + slot, slot) == ENVGEN * (if g == PERIOD then 1 else g + 1) + slot
  {
    if g == PERIOD {
      NextWraps(ENVGEN * g + slot, slot);
    } else {
      NextBelow(ENVGEN * g + slot, slot, 4 * (g + 1));
    }
  }

  /** The generation of the k-th allocation of a slot. */
  function Generation(k: nat): int
    requires k > 0
  {
    (k - 1) % PERIOD + 1
  }

  /** The k-th id of a slot in closed form. */
  lemma {:induction false} IdClosedForm(slot: int, k: nat)
    requires 0 <= slot < NENV && k > 0
    ensures IdAfter(slot, k) == ENVGEN * Generation(k) + slot
  {
    if k == 1 {
      assert IdAfter(slot, 1) == NextId(IdAfter(slot, 0), slot) && IdAfter(slot, 0) == 0;
      assert NextId(0, slot) == ENVGEN + slot;
    } else {
      IdClosedForm(slot, k - 1);
      ModStep(k - 2);
      NextGeneration(Generation(k - 1), slot);
    }
  }

  lemma ModStep(n: nat)
    ensures (n + 1) % PERIOD == if n % PERIOD + 1 == PERIOD then 0 else n % PERIOD + 1
  {
  }

  /** Ids are positive and carry their slot, so ids of different slots differ. */
  lemma IdEncodesSlot(slot: int, k: nat)
    requires 0 <= slot < NENV && k > 0
    ensures 0 < IdAfter(slot, k) < 0x8000_0000 && IdAfter(slot, k) % NENV == slot
  {
    IdClosedForm(slot, k);
    assert 1 <= Generation(k) <= PERIOD;
  }

  /** Two allocations of one slot give the same id exactly when they are a multiple of 2^19 - 1 apart. */
  lemma IdsRepeat(slot: int, j: nat, k: nat)
    requires 0 <= slot < NENV && 0 < j && 0 < k
    ensures IdAfter(slot, j) == IdAfter(slot, k) <==> (k - j) % PERIOD == 0
  {
    IdClosedForm(slot, j);
    IdClosedForm(slot, k);
    SameResidue(j - 1, k - 1);
  }

  lemma SameResidue(a: int, b: int)
    ensures a % PERIOD == b % PERIOD <==> (b - a) % PERIOD == 0
  {
  }
}
