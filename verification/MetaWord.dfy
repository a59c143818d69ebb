/**
 The `meta` word of a slot, as a record of its fields and as the packed 64-bit word.

 low bits                                                       high bits
 | reference counter (30) | hit counter (30) | hit bit | state marker (3) |
 */
module MetaWord {
  import opened Walk

  datatype SlotState = Empty | Construction | Invisible | Visible

  datatype Meta = Meta(refs: int, hits: int, hitBit: bool, state: SlotState) {
    predicate Shareable() {
      state.Invisible? || state.Visible?
    }

    /** Both counters are within their 30 bits. */
    predicate Fits() {
      0 <= refs <= COUNTER_MASK && 0 <= hits <= COUNTER_MASK
    }
  }

  const INIT_HIT_COUNT := 3
  const MAX_HIT_COUNT := 2000

  const COUNTER: nat := 0x4000_0000
  const COUNTER_MASK: nat := COUNTER - 1
  const REF_INCREMENT: nat := 1
  const HIT_INCREMENT: nat := COUNTER
  const HIT_BIT: nat := COUNTER * COUNTER
  const STATE_UNIT: nat := 2 * HIT_BIT

  const OCCUPIED_BIT: nat := 4
  const SHAREABLE_BIT: nat := 2
  const VISIBLE_BIT: nat := 1

  // ---- Operations on the record ----

  function Vacant(): Meta {
    Meta(0, 0, false, Empty)
  }

  function AddRefs(m: Meta, n: int): Meta {
    m.(refs := m.refs + n)
  }

  function AddHits(m: Meta, n: int): Meta {
    m.(hits := m.hits + n)
  }

  /** Fetch-or of the occupied bit: it takes an empty slot and changes no other one. */
  function Occupy(m: Meta): Meta {
    if m.state.Empty? then m.(state := Construction) else m
  }

  /** Fetch-and with the complement of the visible bit. */
  function Hide(m: Meta): Meta {
    if m.state.Visible? then m.(state := Invisible) else m
  }

  function Published(): Meta {
    Meta(0, INIT_HIT_COUNT, false, Visible)
  }

  // ---- Operations on the packed word ----

  function StateCode(s: SlotState): nat {
    match s
    case Empty => 0
    case Construction => OCCUPIED_BIT
    case Invisible => OCCUPIED_BIT + SHAREABLE_BIT
    case Visible => OCCUPIED_BIT + SHAREABLE_BIT + VISIBLE_BIT
  }

  function Pack(m: Meta): Word64
    requires m.Fits()
  {
    m.refs * REF_INCREMENT + m.hits * HIT_INCREMENT + (if m.hitBit then HIT_BIT else 0) + StateCode(m.state) * STATE_UNIT
  }

  function RefCount(w: Word64): nat {
    w % COUNTER
  }

  function HitCount(w: Word64): nat {
    w / HIT_INCREMENT % COUNTER
  }

  function StateOf(w: Word64): nat {
    w / STATE_UNIT
  }

  function FetchAdd(w: Word64, x: nat): Word64 {
    (w + x) % WORD
  }

  function FetchSub(w: Word64, x: nat): Word64 {
    (w - x) % WORD
  }

  /** Fetch-or with a mask of one bit. */
  function FetchOrBit(w: Word64, bit: nat): Word64
    requires bit > 0 && WORD % (2 * bit) == 0
  {
    if w / bit % 2 == 1 then w else FetchAdd(w, bit)
  }

  /** Fetch-and with the complement of a mask of one bit. */
  function FetchAndNotBit(w: Word64, bit: nat): Word64
    requires bit > 0 && WORD % (2 * bit) == 0
  {
    if w / bit % 2 == 1 then FetchSub(w, bit) else w
  }

  /** The fetch-or by which an insertion claims a slot. */
  function OrOccupied(w: Word64): Word64 {
    FetchOrBit(w, OCCUPIED_BIT * STATE_UNIT)
  }

  /** The fetch-and by which an erasure hides a slot. */
  function AndNotVisible(w: Word64): Word64 {
    FetchAndNotBit(w, VISIBLE_BIT * STATE_UNIT)
  }

  /** The shifts and masks read each field back. */
  lemma GettersReadFields(m: Meta)
    requires m.Fits()
    ensures RefCount(Pack(m)) == m.refs
    ensures HitCount(Pack(m)) == m.hits
    ensures StateOf(Pack(m)) == StateCode(m.state)
    ensures (Pack(m) / HIT_BIT % 2 == 1) == m.hitBit
  {
    var h := if m.hitBit then 1 else 0;
    assert Pack(m) == Layout(m.refs, m.hits, h, StateCode(m.state));
    hide Pack;
    LayoutReads(m.refs, m.hits, h, StateCode(m.state));
  }

  function Layout(refs: nat, hits: nat, h: nat, code: nat): nat {
    refs + COUNTER * hits + HIT_BIT * h + STATE_UNIT * code
  }

  lemma LayoutReads(refs: nat, hits: nat, h: nat, code: nat)
    requires refs < COUNTER && hits < COUNTER && h < 2
    ensures Layout(refs, hits, h, code) % COUNTER == refs
    ensures Layout(refs, hits, h, code) / COUNTER % COUNTER == hits
    ensures Layout(refs, hits, h, code) / HIT_BIT % 2 == h
    ensures Layout(refs, hits, h, code) / STATE_UNIT == code
  {
    var high := h + 2 * code;
    LayoutAt(Layout(refs, hits, h, code), refs, hits + COUNTER * high, COUNTER);
    LayoutAt(hits + COUNTER * high, hits, high, COUNTER);
    LayoutAt(Layout(refs, hits, h, code), refs + COUNTER * hits, high, HIT_BIT);
    LayoutAt(high, h, code, 2);
    LayoutAt(Layout(refs, hits, h, code), refs + COUNTER * hits + HIT_BIT * h, code, STATE_UNIT);
  }

  lemma LayoutAt(w: nat, low: nat, high: nat, unit: nat)
    requires low < unit && w == low + unit * high
    ensures w % unit == low && w / unit == high
  {
    Split(low, high, unit);
  }

  lemma Split(low: nat, high: nat, unit: nat)
    requires low < unit
    ensures (low + unit * high) % unit == low && (low + unit * high) / unit == high
  {
    var x := low + unit * high;
    var q := x / unit;
    Difference(unit, q, high);
    AtLeastOneUnit(unit, q - high);
    AtLeastOneUnit(unit, high - q);
    Difference(unit, high, q);
  }

  lemma Difference(unit: int, a: int, b: int)
    ensures unit * (a - b) == unit * a - unit * b
  {
  }

  lemma AtLeastOneUnit(unit: nat, d: int)
    ensures d >= 1 ==> unit * d >= unit
  {
    if d >= 1 {
      Difference(unit, d, 1);
      assert unit * (d - 1) >= 0;
    }
  }

  /** A compare-and-swap on words compares exactly the records. */
  lemma PackInjective(a: Meta, b: Meta)
    requires a.Fits() && b.Fits()
    ensures Pack(a) == Pack(b) <==> a == b
  {
    GettersReadFields(a);
    GettersReadFields(b);
  }

  /**
   The counter updates act on their own field, without carry or borrow, whenever the counter stays
   within its 30 bits.
   */
  lemma CountersRefine(m: Meta, n: int)
    requires m.Fits()
    ensures AddRefs(m, n).Fits() && n >= 0 ==> FetchAdd(Pack(m), n * REF_INCREMENT) == Pack(AddRefs(m, n))
    ensures AddRefs(m, n).Fits() && n <= 0 ==> FetchSub(Pack(m), -n * REF_INCREMENT) == Pack(AddRefs(m, n))
    ensures AddHits(m, n).Fits() && n >= 0 ==> FetchAdd(Pack(m), n * HIT_INCREMENT) == Pack(AddHits(m, n))
    ensures AddHits(m, n).Fits() && n <= 0 ==> FetchSub(Pack(m), -n * HIT_INCREMENT) == Pack(AddHits(m, n))
  {
  }

  /** The two bit operations of the state protocol change the state marker and nothing else. */
  lemma StateBitsRefine(m: Meta)
    requires m.Fits()
    ensures OrOccupied(Pack(m)) == Pack(Occupy(m))
    ensures AndNotVisible(Pack(m)) == Pack(Hide(m))
  {
    hide Pack;
    hide FetchOrBit;
    hide FetchAndNotBit;
    var low := BelowState(m, m.state);
    var low1 := BelowState(m, Occupy(m).state);
    var low2 := BelowState(m, Hide(m).state);
    StateBits(low, StateCode(m.state));
  }

  lemma BelowState(m: Meta, s: SlotState) returns (low: nat)
    requires m.Fits()
    ensures low == m.refs + COUNTER * m.hits + (if m.hitBit then HIT_BIT else 0) < STATE_UNIT
    ensures Pack(m.(state := s)) == low + STATE_UNIT * StateCode(s)
  {
    low := m.refs + COUNTER * m.hits + (if m.hitBit then HIT_BIT else 0);
  }

  lemma StateBits(low: nat, code: nat)
    requires low < STATE_UNIT && code in {0, 4, 6, 7}
    ensures FetchOrBit(low + STATE_UNIT * code, OCCUPIED_BIT * STATE_UNIT) == low + STATE_UNIT * (if code == 0 then 4 else code)
    ensures FetchAndNotBit(low + STATE_UNIT * code, VISIBLE_BIT * STATE_UNIT) == low + STATE_UNIT * (if code == 7 then 6 else code)
  {
    OccupiedBitAt(low, code);
    Split(low, code, STATE_UNIT);
  }

  lemma OccupiedBitAt(low: nat, code: nat)
    requires low < STATE_UNIT && code < 8
    ensures (low + STATE_UNIT * code) / (OCCUPIED_BIT * STATE_UNIT) == code / OCCUPIED_BIT
  {
    if code >= OCCUPIED_BIT {
      Split(low + STATE_UNIT * (code - OCCUPIED_BIT), 1, OCCUPIED_BIT * STATE_UNIT);
    } else {
      Split(low + STATE_UNIT * code, 0, OCCUPIED_BIT * STATE_UNIT);
    }
  }

  /**
   A reference decrement leaves the hit counter, the hit bit and the state marker alone if and
   only if the reference counter is positive; at zero it borrows from them.
   */
  lemma RefDecrementExact(m: Meta)
    requires m.Fits()
    ensures FetchSub(Pack(m), REF_INCREMENT) / COUNTER == Pack(m) / COUNTER <==> m.refs > 0
  {
    var h := if m.hitBit then 1 else 0;
    var high := m.hits + COUNTER * (h + 2 * StateCode(m.state));
    assert Pack(m) == m.refs + COUNTER * high;
    hide Pack;
    DecrementExact(m.refs, high, Pack(m));
  }

  lemma DecrementExact(low: nat, high: nat, w: Word64)
    requires low < COUNTER && w == low + COUNTER * high
    ensures FetchSub(w, REF_INCREMENT) / COUNTER == w / COUNTER <==> low > 0
  {
    Split(low, high, COUNTER);
    if low > 0 {
      Split(low - 1, high, COUNTER);
    } else if high > 0 {
      Split(COUNTER_MASK, high - 1, COUNTER);
    }
  }

  /** In particular a decrement of the all-zero word of an empty slot reads as a visible slot. */
  lemma DecrementOfVacantForgesVisible()
    ensures StateOf(FetchSub(Pack(Vacant()), REF_INCREMENT)) == StateCode(Visible)
    ensures RefCount(FetchSub(Pack(Vacant()), REF_INCREMENT)) == COUNTER_MASK
  {
  }

  /** Taking `n` hits off leaves hit bit and state alone exactly when there are `n` hits to take off. */
  lemma HitDecrementExact(m: Meta, n: nat)
    requires m.Fits() && n <= COUNTER_MASK
    ensures FetchSub(Pack(m), n * HIT_INCREMENT) / HIT_BIT == Pack(m) / HIT_BIT <==> n <= m.hits
  {
    var high := (if m.hitBit then 1 else 0) + 2 * StateCode(m.state);
    var low := m.refs + COUNTER * m.hits;
    assert Pack(m) == low + HIT_BIT * high;
    hide Pack;
    SubtractExact(low, high, n * HIT_INCREMENT, Pack(m));
  }

  lemma SubtractExact(low: nat, high: nat, x: nat, w: Word64)
    requires low < HIT_BIT && x < HIT_BIT && w == low + HIT_BIT * high
    ensures FetchSub(w, x) / HIT_BIT == w / HIT_BIT <==> x <= low
  {
    Split(low, high, HIT_BIT);
    if x <= low {
      Split(low - x, high, HIT_BIT);
    } else if high > 0 {
      Split(low - x + HIT_BIT, high - 1, HIT_BIT);
    }
  }

  /** In particular one hit too many taken off a visible entry hides it. */
  lemma HitBorrowHides(refs: nat)
    requires refs <= COUNTER_MASK
    ensures StateOf(FetchSub(Pack(Meta(refs, 0, false, Visible)), HIT_INCREMENT)) == StateCode(Invisible)
  {
  }
}
