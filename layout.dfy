// The flat layout of the replicated super cell (CCrystal::ReplicateUnitCell,
// libs/crystal.cpp): the atom vector holds ncx*ncy*ncz copies of the base,
// and base atom i of unit cell (icx, icy, icz) goes to slot
// (icz + icy*ncz + icx*ncy*ncz) * nbase + i.

module CellLayout {

  /** Super-cell extent in unit cells and the number of base atoms. */
  datatype Dims = Dims(ncx: nat, ncy: nat, ncz: nat, nbase: nat)

  /** A unit cell of the super cell. */
  datatype Cell = Cell(icx: int, icy: int, icz: int)

  predicate ValidCell(d: Dims, c: Cell)
  {
    0 <= c.icx < d.ncx && 0 <= c.icy < d.ncy && 0 <= c.icz < d.ncz
  }

  /** Number of slots after the resize: ncx*ncy*ncz*nbase. */
  function Total(d: Dims): nat
  {
    d.ncx * d.ncy * d.ncz * d.nbase
  }

  function CellIndex(d: Dims, c: Cell): int
  {
    c.icz + c.icy * d.ncz + c.icx * d.ncy * d.ncz
  }

  /** j = jCell + i with jCell = CellIndex * nbase. */
  function Slot(d: Dims, c: Cell, k: int): int
  {
    CellIndex(d, c) * d.nbase + k
  }

  /** The cell that owns slot j (inverse of Slot, first component). */
  function SlotCell(d: Dims, j: int): Cell
    requires d.nbase > 0 && d.ncy > 0 && d.ncz > 0
  {
    var ci := j / d.nbase;
    var t := ci / d.ncz;
    Cell(t / d.ncy, t % d.ncy, ci % d.ncz)
  }

  /** The base atom copied into slot j (inverse of Slot, second component). */
  function SlotBase(d: Dims, j: int): int
    requires d.nbase > 0
  {
    j % d.nbase
  }

  lemma MulMonotone(a: int, a': int, b: int)
    requires 0 <= a <= a' && 0 <= b
    ensures a * b <= a' * b
  {
  }

  lemma DivMod(n: int, b: int)
    requires b > 0
    ensures n == (n / b) * b + n % b && 0 <= n % b < b
  {
  }

  lemma MulSign(x: int, b: int)
    requires b > 0
    ensures x >= 1 ==> x * b >= b
    ensures x <= -1 ==> x * b <= -b
  {
    if x >= 1 {
      MulMonotone(1, x, b);
    } else if x <= -1 {
      MulMonotone(1, -x, b);
      assert (-x) * b == -(x * b);
    }
  }

  /** A mixed-radix digit split is unique. */
  lemma SplitUnique(a: int, r: int, a': int, r': int, b: int)
    requires b > 0 && 0 <= r < b && 0 <= r' < b
    requires a * b + r == a' * b + r'
    ensures a == a' && r == r'
  {
    assert (a - a') * b == r' - r;
    MulSign(a - a', b);
  }

  /** The quotient and remainder are the digits of any such split. */
  lemma DigitsOf(n: int, b: int, q: int, r: int)
    requires b > 0 && n == q * b + r && 0 <= r < b
    ensures q == n / b && r == n % b
  {
    DivMod(n, b);
    SplitUnique(q, r, n / b, n % b, b);
  }

  lemma CellIndexDigits(d: Dims, c: Cell)
    ensures CellIndex(d, c) == (c.icx * d.ncy + c.icy) * d.ncz + c.icz
  {
    assert (c.icx * d.ncy + c.icy) * d.ncz == c.icx * d.ncy * d.ncz + c.icy * d.ncz;
  }

  /** Cell indices of valid cells fill 0 .. ncx*ncy*ncz - 1. */
  lemma CellIndexInRange(d: Dims, c: Cell)
    requires ValidCell(d, c)
    ensures 0 <= CellIndex(d, c) < d.ncx * d.ncy * d.ncz
  {
    CellIndexDigits(d, c);
    var t := c.icx * d.ncy + c.icy;
    MulMonotone(c.icx, d.ncx - 1, d.ncy);
    assert t < d.ncx * d.ncy;
    MulMonotone(t, d.ncx * d.ncy - 1, d.ncz);
    assert (d.ncx * d.ncy - 1) * d.ncz == d.ncx * d.ncy * d.ncz - d.ncz;
  }

  /** Every (cell, base atom) pair lands inside the resized vector ... */
  lemma SlotInRange(d: Dims, c: Cell, k: int)
    requires ValidCell(d, c) && 0 <= k < d.nbase
    ensures 0 <= Slot(d, c, k) < Total(d)
  {
    CellIndexInRange(d, c);
    var n := d.ncx * d.ncy * d.ncz;
    MulMonotone(CellIndex(d, c), n - 1, d.nbase);
    assert (n - 1) * d.nbase == n * d.nbase - d.nbase;
  }

  /** ... the slot determines the pair (the map is injective) ... */
  lemma SlotDecode(d: Dims, c: Cell, k: int)
    requires ValidCell(d, c) && 0 <= k < d.nbase
    ensures SlotCell(d, Slot(d, c, k)) == c && SlotBase(d, Slot(d, c, k)) == k
  {
    var ci := CellIndex(d, c);
    DigitsOf(Slot(d, c, k), d.nbase, ci, k);
    CellIndexDigits(d, c);
    var t := c.icx * d.ncy + c.icy;
    DigitsOf(ci, d.ncz, t, c.icz);
    DigitsOf(t, d.ncy, c.icx, c.icy);
  }

  lemma PositiveFactors(d: Dims)
    requires Total(d) > 0
    ensures d.ncx > 0 && d.ncy > 0 && d.ncz > 0 && d.nbase > 0
  {
  }

  lemma LtFromMul(a: int, b: int, c: int)
    requires c > 0 && a * c < b * c
    ensures a < b
  {
    assert (b - a) * c == b * c - a * c;
    MulSign(b - a, c);
  }

  /** A quotient digit of a non-negative number is non-negative. */
  lemma QuotientNonNegative(n: int, b: int)
    requires n >= 0 && b > 0
    ensures n / b >= 0
  {
    DivMod(n, b);
    MulSign(n / b, b);
  }

  /** ... and every slot of the vector is reached (the map is onto). */
  lemma SlotEncode(d: Dims, j: int)
    requires 0 <= j < Total(d)
    ensures d.nbase > 0 && d.ncy > 0 && d.ncz > 0
    ensures ValidCell(d, SlotCell(d, j)) && 0 <= SlotBase(d, j) < d.nbase
    ensures Slot(d, SlotCell(d, j), SlotBase(d, j)) == j
  {
    PositiveFactors(d);
    var n := d.ncx * d.ncy * d.ncz;
    var nxy := d.ncx * d.ncy;
    assert n == nxy * d.ncz;
    DivMod(j, d.nbase);
    QuotientNonNegative(j, d.nbase);
    var ci := j / d.nbase;
    LtFromMul(ci, n, d.nbase);
    DivMod(ci, d.ncz);
    QuotientNonNegative(ci, d.ncz);
    var t := ci / d.ncz;
    LtFromMul(t, nxy, d.ncz);
    DivMod(t, d.ncy);
    QuotientNonNegative(t, d.ncy);
    var cx := t / d.ncy;
    LtFromMul(cx, d.ncx, d.ncy);
    var c := SlotCell(d, j);
    assert c == Cell(cx, t % d.ncy, ci % d.ncz);
    CellIndexDigits(d, c);
    assert CellIndex(d, c) == ci;
  }

  /** The replication layout is a bijection between (valid cell, base atom)
      pairs and the slots 0 .. ncx*ncy*ncz*nbase - 1. */
  lemma SlotBijection(d: Dims)
    ensures forall c, k :: ValidCell(d, c) && 0 <= k < d.nbase ==>
      0 <= Slot(d, c, k) < Total(d)
    ensures forall c, k, c', k' ::
      (ValidCell(d, c) && 0 <= k < d.nbase && ValidCell(d, c') && 0 <= k' < d.nbase &&
       Slot(d, c, k) == Slot(d, c', k')) ==> c == c' && k == k'
    ensures forall j :: 0 <= j < Total(d) ==>
      ValidCell(d, SlotCell(d, j)) && 0 <= SlotBase(d, j) < d.nbase && Slot(d, SlotCell(d, j), SlotBase(d, j)) == j
  {
    forall c, k | ValidCell(d, c) && 0 <= k < d.nbase
      ensures 0 <= Slot(d, c, k) < Total(d)
    {
      SlotInRange(d, c, k);
    }
    forall c, k, c', k' | ValidCell(d, c) && 0 <= k < d.nbase && ValidCell(d, c') && 0 <= k' < d.nbase &&
      Slot(d, c, k) == Slot(d, c', k')
      ensures c == c' && k == k'
    {
      SlotDecode(d, c, k);
      SlotDecode(d, c', k');
    }
    forall j | 0 <= j < Total(d)
      ensures ValidCell(d, SlotCell(d, j)) && 0 <= SlotBase(d, j) < d.nbase && Slot(d, SlotCell(d, j), SlotBase(d, j)) == j
    {
      SlotEncode(d, j);
    }
  }
}
