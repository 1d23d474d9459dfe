/** kernel/sched/run_queue.c: one task per priority, found through a two-level bitmap.

    The specification is the sequence `slots` of 64 task pointers, one per priority.
    The class keeps the byte maps of the source and is proved to refine it. */
module RunQueues {
  import opened Config

  // ---------------------------------------------------------------- specification

  /** The priority of the first occupied slot at or above `from`; 64 when there is none. */
  function FirstFrom(slots: seq<TaskId>, from: nat): (p: nat)
    requires from <= |slots|
    ensures from <= p <= |slots|
    ensures p < |slots| ==> slots[p] != NULL
    ensures forall q :: from <= q < p ==> slots[q] == NULL
    decreases |slots| - from
  {
    if from == |slots| || slots[from] != NULL then from else FirstFrom(slots, from + 1)
  }

  predicate Empty(slots: seq<TaskId>) {
    forall p :: 0 <= p < |slots| ==> slots[p] == NULL
  }

  /** The priority a linear scan finds; 0 when nothing is ready, as in the source. */
  function Highest(slots: seq<TaskId>): (p: nat)
    requires |slots| == OS_MAX_TASKS
    ensures p < OS_MAX_TASKS
    ensures Empty(slots) ==> p == 0
    ensures !Empty(slots) ==> slots[p] != NULL && forall q :: 0 <= q < p ==> slots[q] == NULL
  {
    var p := FirstFrom(slots, 0);
    if p == OS_MAX_TASKS then 0 else p
  }

  /** Queueing at an occupied priority loses the task: the source then only sets bits. */
  function Enqueue(slots: seq<TaskId>, t: TaskId, prio: nat): seq<TaskId>
    requires prio < |slots|
  {
    if slots[prio] == NULL then slots[prio := t] else slots
  }

  // ---------------------------------------------------------------- bytes and bits

  /** `1 << i` for a bit number of a byte. */
  function Mask(i: nat): bv8
    requires i < 8
  {
    if i == 0 then 1 else Mask(i - 1) << 1
  }

  lemma MaskValue(i: nat)
    requires i < 8
    ensures Mask(i) == if i == 0 then 0x01 else if i == 1 then 0x02 else if i == 2 then 0x04 else if i == 3 then 0x08
                       else if i == 4 then 0x10 else if i == 5 then 0x20 else if i == 6 then 0x40 else 0x80
  {
    if i > 0 { MaskValue(i - 1); }
  }

  /** The value, 0 or 1, of bit i of a byte. */
  function Bit(b: bv8, i: nat): (v: nat)
    requires i < 8
    ensures v <= 1
  {
    if b & Mask(i) == 0 then 0 else 1
  }

  lemma OverlapOfMasks(i: nat, j: nat)
    requires i < 8 && j < 8
    ensures Mask(i) != 0 && Mask(i) & Mask(j) == if i == j then Mask(i) else 0
  {
    MaskValue(i);
    MaskValue(j);
  }

  lemma SetAndClear(b: bv8, m: bv8, n: bv8)
    ensures (b | m) & m == m && (b & !m) & m == 0
    ensures m & n == 0 ==> (b | m) & n == b & n && (b & !m) & n == b & n
  {
  }

  /** `byte | (1 << x)`: bit x becomes set and no other bit moves. */
  lemma SetByte(byte: bv8, x: nat, byte': bv8)
    requires x < 8 && byte' == byte | Mask(x)
    ensures byte' != 0
    ensures forall j :: 0 <= j < 8 ==> Bit(byte', j) == if x == j then 1 else Bit(byte, j)
  {
    forall j: nat | j < 8 ensures Bit(byte', j) == if x == j then 1 else Bit(byte, j) {
      OverlapOfMasks(x, j);
      SetAndClear(byte, Mask(x), Mask(j));
    }
    ByteIsZero(byte');
    assert Bit(byte', x) == 1;
  }

  /** `byte & ~(1 << x)`: bit x becomes clear and no other bit moves. */
  lemma ClearByte(byte: bv8, x: nat, byte': bv8)
    requires x < 8 && byte' == byte & !Mask(x)
    ensures byte == 0 ==> byte' == 0
    ensures forall j :: 0 <= j < 8 ==> Bit(byte', j) == if x == j then 0 else Bit(byte, j)
  {
    forall j: nat | j < 8 ensures Bit(byte', j) == if x == j then 0 else Bit(byte, j) {
      OverlapOfMasks(x, j);
      SetAndClear(byte, Mask(x), Mask(j));
    }
  }

  lemma ByteIsZero(b: bv8)
    ensures b == 0 <==> forall i :: 0 <= i < 8 ==> Bit(b, i) == 0
  {
    MaskValue(0); MaskValue(1); MaskValue(2); MaskValue(3); MaskValue(4); MaskValue(5); MaskValue(6); MaskValue(7);
    if b != 0 {
      assert Bit(b, 0) == 1 || Bit(b, 1) == 1 || Bit(b, 2) == 1 || Bit(b, 3) == 1
          || Bit(b, 4) == 1 || Bit(b, 5) == 1 || Bit(b, 6) == 1 || Bit(b, 7) == 1;
    }
  }

  /** `prio_unmap_table`, laid out in the rows of its initialiser: entry 16h + l is row h, column l. */
  const PRIO_UNMAP_TABLE: seq<seq<nat>> := [
    [0, 0, 1, 0, 2, 0, 1, 0, 3, 0, 1, 0, 2, 0, 1, 0],
    [4, 0, 1, 0, 2, 0, 1, 0, 3, 0, 1, 0, 2, 0, 1, 0],
    [5, 0, 1, 0, 2, 0, 1, 0, 3, 0, 1, 0, 2, 0, 1, 0],
    [4, 0, 1, 0, 2, 0, 1, 0, 3, 0, 1, 0, 2, 0, 1, 0],
    [6, 0, 1, 0, 2, 0, 1, 0, 3, 0, 1, 0, 2, 0, 1, 0],
    [4, 0, 1, 0, 2, 0, 1, 0, 3, 0, 1, 0, 2, 0, 1, 0],
    [5, 0, 1, 0, 2, 0, 1, 0, 3, 0, 1, 0, 2, 0, 1, 0],
    [4, 0, 1, 0, 2, 0, 1, 0, 3, 0, 1, 0, 2, 0, 1, 0],
    [7, 0, 1, 0, 2, 0, 1, 0, 3, 0, 1, 0, 2, 0, 1, 0],
    [4, 0, 1, 0, 2, 0, 1, 0, 3, 0, 1, 0, 2, 0, 1, 0],
    [5, 0, 1, 0, 2, 0, 1, 0, 3, 0, 1, 0, 2, 0, 1, 0],
    [4, 0, 1, 0, 2, 0, 1, 0, 3, 0, 1, 0, 2, 0, 1, 0],
    [6, 0, 1, 0, 2, 0, 1, 0, 3, 0, 1, 0, 2, 0, 1, 0],
    [4, 0, 1, 0, 2, 0, 1, 0, 3, 0, 1, 0, 2, 0, 1, 0],
    [5, 0, 1, 0, 2, 0, 1, 0, 3, 0, 1, 0, 2, 0, 1, 0],
    [4, 0, 1, 0, 2, 0, 1, 0, 3, 0, 1, 0, 2, 0, 1, 0]
  ]

  /** The rows repeat the first one, except for column 0, which continues in the high nibble. */
  lemma TableRow(h: nat, l: nat)
    requires h < 16 && l < 16
    ensures |PRIO_UNMAP_TABLE| == 16 && |PRIO_UNMAP_TABLE[h]| == 16
    ensures l > 0 ==> PRIO_UNMAP_TABLE[h][l] == PRIO_UNMAP_TABLE[0][l]
    ensures h > 0 ==> PRIO_UNMAP_TABLE[h][0] == 4 + PRIO_UNMAP_TABLE[0][h]
  {
  }

  lemma TableNibble(n: bv8)
    requires n < 16
    ensures |PRIO_UNMAP_TABLE| == 16 && |PRIO_UNMAP_TABLE[0]| == 16
    ensures n != 0 ==>
              var k := PRIO_UNMAP_TABLE[0][n as nat];
              k < 4 && Bit(n, k) == 1 && forall j: nat | j < k :: Bit(n, j) == 0
  {
    MaskValue(0); MaskValue(1); MaskValue(2); MaskValue(3);
  }

  lemma NibbleBits(b: bv8, l: bv8, h: bv8)
    requires l == b & 15 && h == b >> 4
    ensures forall i :: 0 <= i < 4 ==> Bit(b, i) == Bit(l, i)
    ensures forall i :: 4 <= i < 8 ==> Bit(b, i) == Bit(h, i - 4)
  {
    forall i: nat | i < 4 ensures Bit(b, i) == Bit(l, i) { MaskValue(i); }
    forall i: nat | 4 <= i < 8 ensures Bit(b, i) == Bit(h, i - 4) {
      MaskValue(i);
      MaskValue(i - 4);
    }
  }

  /** `k` is the number of the lowest set bit of `b`, or 0 when no bit is set. */
  ghost predicate IsLowestBit(b: bv8, k: nat) {
    k < 8 && if b == 0 then k == 0 else Bit(b, k) == 1 && forall j: nat | j < k :: Bit(b, j) == 0
  }

  /** The table gives the number of the lowest set bit, and 0 for the byte 0. */
  function PrioUnmap(b: bv8): (k: nat)
    ensures IsLowestBit(b, k)
  {
    var h, l := b >> 4, b & 15;
    TableRow(h as nat, l as nat);
    TableNibble(h);
    TableNibble(l);
    NibbleBits(b, l, h);
    ByteIsZero(l);
    assert b != 0 ==> h != 0 || l != 0;
    PRIO_UNMAP_TABLE[h as nat][l as nat]
  }

  // ---------------------------------------------------------------- implementation

  /** Bit x of byte y is set exactly when slot 8y + x is occupied, and
      group bit g exactly when byte g is not zero. */
  ghost predicate Represents(bits: seq<bv8>, group: bv8, slots: seq<TaskId>) {
    && |slots| == OS_MAX_TASKS && |bits| == 8
    && (forall y, x :: 0 <= y < 8 && 0 <= x < 8 ==> (Bit(bits[y], x) == 1 <==> slots[8 * y + x] != NULL))
    && (forall g :: 0 <= g < 8 ==> (Bit(group, g) == 1 <==> bits[g] != 0))
  }

  lemma SetBit(bits: seq<bv8>, group: bv8, slots: seq<TaskId>, prio: nat, t: TaskId, byte: bv8, group': bv8)
    requires Represents(bits, group, slots) && prio < 64 && t != NULL
    requires byte != 0 && forall j :: 0 <= j < 8 ==> Bit(byte, j) == if prio % 8 == j then 1 else Bit(bits[prio / 8], j)
    requires forall g :: 0 <= g < 8 ==> Bit(group', g) == if prio / 8 == g then 1 else Bit(group, g)
    ensures Represents(bits[prio / 8 := byte], group', Enqueue(slots, t, prio))
  {
    var bits', slots' := bits[prio / 8 := byte], Enqueue(slots, t, prio);
    forall y: nat, x: nat | y < 8 && x < 8 ensures Bit(bits'[y], x) == 1 <==> slots'[8 * y + x] != NULL {
      assert 8 * y + x == prio ==> y == prio / 8 && x == prio % 8;
    }
  }

  lemma ClearBit(bits: seq<bv8>, group: bv8, slots: seq<TaskId>, prio: nat, byte: bv8, group': bv8)
    requires Represents(bits, group, slots) && prio < 64
    requires bits[prio / 8] == 0 ==> byte == 0
    requires forall j :: 0 <= j < 8 ==> Bit(byte, j) == if prio % 8 == j then 0 else Bit(bits[prio / 8], j)
    requires if byte != 0 then group' == group
             else forall g :: 0 <= g < 8 ==> Bit(group', g) == if prio / 8 == g then 0 else Bit(group, g)
    ensures Represents(bits[prio / 8 := byte], group', slots[prio := NULL])
  {
    var bits', slots' := bits[prio / 8 := byte], slots[prio := NULL];
    forall y: nat, x: nat | y < 8 && x < 8 ensures Bit(bits'[y], x) == 1 <==> slots'[8 * y + x] != NULL {
      assert 8 * y + x == prio ==> y == prio / 8 && x == prio % 8;
    }
  }

  lemma AddRepresents(bits: seq<bv8>, group: bv8, slots: seq<TaskId>, prio: nat, t: TaskId, byte: bv8, group': bv8)
    requires Represents(bits, group, slots) && prio < 64 && t != NULL
    requires byte == bits[prio / 8] | Mask(prio % 8) && group' == group | Mask(prio / 8)
    ensures Represents(bits[prio / 8 := byte], group', Enqueue(slots, t, prio))
  {
    SetByte(group, prio / 8, group');
    SetByte(bits[prio / 8], prio % 8, byte);
    SetBit(bits, group, slots, prio, t, byte, group');
  }

  lemma RemoveRepresents(bits: seq<bv8>, group: bv8, slots: seq<TaskId>, prio: nat, byte: bv8, group': bv8)
    requires Represents(bits, group, slots) && prio < 64
    requires byte == bits[prio / 8] & !Mask(prio % 8)
    requires group' == if byte == 0 then group & !Mask(prio / 8) else group
    ensures Represents(bits[prio / 8 := byte], group', slots[prio := NULL])
  {
    if byte == 0 { ClearByte(group, prio / 8, group'); }
    ClearByte(bits[prio / 8], prio % 8, byte);
    ClearBit(bits, group, slots, prio, byte, group');
  }

  lemma SlotOfBit(bits: seq<bv8>, group: bv8, slots: seq<TaskId>, y: nat, x: nat)
    requires Represents(bits, group, slots) && y < 8 && x < 8
    ensures slots[8 * y + x] != NULL <==> Bit(bits[y], x) == 1
  {
  }

  /** Below a clear group bit no slot is occupied; a set one belongs to a byte that is not zero. */
  lemma ByteIsOccupied(bits: seq<bv8>, group: bv8, slots: seq<TaskId>, y: nat, x: nat)
    requires Represents(bits, group, slots) && y < 8 && x < 8
    ensures Bit(group, y) == 0 ==> slots[8 * y + x] == NULL
    ensures Bit(group, y) == 1 ==> bits[y] != 0
  {
    ByteIsZero(bits[y]);
    SlotOfBit(bits, group, slots, y, x);
  }

  /** No slot ahead of the one that the lookups find is occupied. */
  lemma BehindIsFree(bits: seq<bv8>, group: bv8, slots: seq<TaskId>, y: nat, x: nat, q: nat)
    requires Represents(bits, group, slots) && q < 64 && (group == 0 || q < 8 * y + x)
    requires IsLowestBit(group, y) && IsLowestBit(bits[y], x)
    ensures slots[q] == NULL
  {
    var g, b := q / 8, q % 8;
    if group == 0 || g < y {
      ByteIsZero(group);
      ByteIsOccupied(bits, group, slots, g, b);
    } else {
      assert g == y && b < x;
      SlotOfBit(bits, group, slots, y, b);
    }
  }

  /** Two table lookups find what a scan over all 64 slots would find. */
  lemma LookupIsHighest(bits: seq<bv8>, group: bv8, slots: seq<TaskId>, y: nat, x: nat)
    requires Represents(bits, group, slots)
    requires IsLowestBit(group, y) && IsLowestBit(bits[y], x)
    ensures 8 * y + x == Highest(slots)
  {
    forall q: nat | q < 64 && (group == 0 || q < 8 * y + x) ensures slots[q] == NULL {
      BehindIsFree(bits, group, slots, y, x, q);
    }
    if group != 0 {
      ByteIsOccupied(bits, group, slots, y, 0);
      SlotOfBit(bits, group, slots, y, x);
    }
  }

  class RunQueue {
    const list: array<TaskId>
    const bits: array<bv8>
    var group: bv8

    ghost predicate Valid()
      reads this, list, bits
    {
      Represents(bits[..], group, list[..])
    }

    constructor ()
      ensures Valid() && fresh(list) && fresh(bits)
      ensures list[..] == seq(OS_MAX_TASKS, _ => NULL)
    {
      list := new TaskId[OS_MAX_TASKS](_ => NULL);
      bits := new bv8[8](_ => 0);
      group := 0;
    }

    /** Whatever the memory holds. */
    method Init()
      requires list.Length == OS_MAX_TASKS && bits.Length == 8
      modifies this, list, bits
      ensures Valid() && list[..] == seq(OS_MAX_TASKS, _ => NULL)
    {
      for i := 0 to OS_MAX_TASKS
        invariant forall p :: 0 <= p < i ==> list[p] == NULL
      {
        list[i] := NULL;
      }
      for i := 0 to 8
        invariant forall g :: 0 <= g < i ==> bits[g] == 0
        invariant list[..] == seq(OS_MAX_TASKS, _ => NULL)
      {
        bits[i] := 0;
      }
      group := 0;
    }

    /** The bit of a slot and the bit of its group. */
    method SetBits(y: nat, x: nat)
      requires bits.Length == 8 && y < 8 && x < 8
      modifies this, bits
      ensures bits[..] == old(bits[..])[y := bits[y]] && bits[y] == old(bits[y]) | Mask(x)
      ensures group == old(group) | Mask(y)
    {
      group := group | Mask(y);
      bits[y] := bits[y] | Mask(x);
    }

    method Add(t: TaskId, prio: nat)
      requires Valid() && t != NULL && prio < OS_MAX_TASKS
      modifies this, list, bits
      ensures Valid() && list[..] == Enqueue(old(list[..]), t, prio)
    {
      var y, x := prio / 8, prio % 8;
      ghost var bits0, group0, slots0 := bits[..], group, list[..];
      SetBits(y, x);
      AddRepresents(bits0, group0, slots0, prio, t, bits[y], group);
      if list[prio] == NULL {
        list[prio] := t;
      }
      assert list[..] == Enqueue(slots0, t, prio);
    }

    /** The bit of a slot, and the bit of its group if the byte becomes zero. */
    method ClearBits(y: nat, x: nat)
      requires bits.Length == 8 && y < 8 && x < 8
      modifies this, bits
      ensures bits[..] == old(bits[..])[y := bits[y]] && bits[y] == old(bits[y]) & !Mask(x)
      ensures group == if bits[y] == 0 then old(group) & !Mask(y) else old(group)
    {
      bits[y] := bits[y] & !Mask(x);
      if bits[y] == 0 {
        group := group & !Mask(y);
      }
    }

    method Remove(prio: nat) returns (t: TaskId)
      requires Valid() && prio < OS_MAX_TASKS
      modifies this, list, bits
      ensures Valid() && t == old(list[prio]) && list[..] == old(list[..])[prio := NULL]
    {
      var y, x := prio / 8, prio % 8;
      ghost var bits0, group0, slots0 := bits[..], group, list[..];
      t := list[prio];
      list[prio] := NULL;
      assert list[..] == slots0[prio := NULL];
      ClearBits(y, x);
      RemoveRepresents(bits0, group0, slots0, prio, bits[y], group);
    }

    method HighestPrio() returns (p: nat)
      requires Valid()
      ensures p == Highest(list[..])
    {
      var y := PrioUnmap(group);
      var x := PrioUnmap(bits[y]);
      p := 8 * y + x;
      LookupIsHighest(bits[..], group, list[..], y, x);
    }
  }
}
