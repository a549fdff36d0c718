/** Environment ids: what env_alloc generates and what envid2env accepts (kern/env.c, inc/env.h). */
module EnvIds {

  const NENV := 1024
  const TWO31 := 0x8000_0000

  // A 32-bit signed sum, taking overflow as wrap-around.
  function Wrap32(x: int): int { (x + TWO31) % 0x1_0000_0000 - TWO31 }

  // ENVX(id), which keeps the low ten bits of the two's complement.
  function Envx(id: int): (slot: nat) { id % NENV }

  // The id env_alloc gives slot after id: the next generation, above the slot's bits.
  function NextId(id: int, slot: nat): int
    requires slot < NENV
  {
    var sum := Wrap32(id + 4096);
    var generation := sum - sum % NENV;
    (if generation <= 0 then 4096 else generation) + slot
  }

  // The id of a slot after k allocations; env_init sets it to 0.
  function IdAt(slot: nat, k: nat): int
    requires slot < NENV
  {
    if k == 0 then 0 else NextId(IdAt(slot, k - 1), slot)
  }

  // Generations count from 1 to 524287 and start over.
  lemma {:induction false} IdAtClosed(slot: nat, k: nat)
    requires slot < NENV && k > 0
    ensures IdAt(slot, k) == 4096 * ((k - 1) % 524287 + 1) + slot
  {
    if k > 1 {
      IdAtClosed(slot, k - 1);
      var g := (k - 2) % 524287;
      NextStep(g, slot);
      ModNext(k - 2);
    } else {
      assert Wrap32(4096) == 4096;
    }
  }

  lemma WrapBelow(x: int)
    requires 0 <= x < TWO31
    ensures Wrap32(x) == x
  {
  }

  lemma WrapAbove(x: int)
    requires TWO31 <= x < 2 * TWO31
    ensures Wrap32(x) == x - 2 * TWO31
  {
  }

  lemma LowBits(k: int, slot: nat)
    requires slot < NENV
    ensures (1024 * k + slot) % NENV == slot
  {
  }

  lemma NextStep(g: nat, slot: nat)
    requires g < 524287 && slot < NENV
    ensures NextId(4096 * (g + 1) + slot, slot) == (if g == 524286 then 4096 else 4096 * (g + 2)) + slot
  {
    hide Wrap32;
    var x := 4096 * (g + 1) + slot + 4096;
    if g == 524286 {
      WrapAbove(x);
      LowBits(-2097152, slot);
    } else {
      WrapBelow(x);
      LowBits(4 * (g + 2), slot);
    }
  }

  lemma ModNext(n: nat)
    ensures (n + 1) % 524287 == if n % 524287 == 524286 then 0 else n % 524287 + 1
  {
  }

  // Every id is positive and encodes its slot.
  lemma IdEncodesSlot(slot: nat, k: nat)
    requires slot < NENV && k > 0
    ensures 0 < IdAt(slot, k) < TWO31 && Envx(IdAt(slot, k)) == slot
  {
    IdAtClosed(slot, k);
  }

  lemma SameResidue(a: nat, b: nat)
    requires a <= b
    ensures a % 524287 == b % 524287 <==> (b - a) % 524287 == 0
  {
    var quotients := b / 524287 - a / 524287;
    assert b - a == 524287 * quotients + (b % 524287 - a % 524287);
  }

  // Two allocations of a slot get the same id exactly when 524287 divides their distance.
  lemma IdRepeats(slot: nat, i: nat, j: nat)
    requires slot < NENV && 0 < i <= j
    ensures IdAt(slot, i) == IdAt(slot, j) <==> (j - i) % 524287 == 0
  {
    IdAtClosed(slot, i);
    IdAtClosed(slot, j);
    SameResidue(i - 1, j - 1);
  }

  // Ids of different slots differ, so an id names one allocation of one slot within a cycle.
  lemma IdNamesOne(a: nat, i: nat, b: nat, j: nat)
    requires a < NENV && b < NENV && 0 < i <= j && j - i < 524287
    ensures IdAt(a, i) == IdAt(b, j) <==> a == b && i == j
  {
    IdEncodesSlot(a, i);
    IdEncodesSlot(b, j);
    if a == b {
      IdRepeats(a, i, j);
    }
  }
}
