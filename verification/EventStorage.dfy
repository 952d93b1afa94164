/**
 Dual-copy storage (lib/event_storage/src/event_store.h): wrapping generation
 comparison, selection between two copies, and the commit discipline that
 writes the copy not in use.  The discipline is shown to make a pair of copies
 behave as one atomic register, whatever an interrupted write leaves behind.
 */
module EventStorage {
  import opened Words

  datatype CopySlot = A | B {
    function Opposite(): CopySlot {
      if this == A then B else A
    }
  }

  /** One stored copy: absent, present but undecodable, or a decodable record. */
  datatype Copy<+R> = Missing | Undecodable | Valid(generation: u32, record: R)

  datatype CopyPair<+R> = CopyPair(a: Copy<R>, b: Copy<R>) {
    function At(slot: CopySlot): Copy<R> {
      if slot == A then a else b
    }
  }

  function With<R>(p: CopyPair<R>, slot: CopySlot, copy: Copy<R>): CopyPair<R> {
    if slot == A then CopyPair(copy, p.b) else CopyPair(p.a, copy)
  }

  datatype GenerationOrder = LEFT_NEWER | RIGHT_NEWER | EQUAL | AMBIGUOUS

  function CompareGenerations(left: u32, right: u32): GenerationOrder {
    var distance := Wrap32(left - right);
    if left == right then EQUAL
    else if distance == 0x8000_0000 then AMBIGUOUS
    else if distance < 0x8000_0000 then LEFT_NEWER
    else RIGHT_NEWER
  }

  /** `left` is reached from `right` by `steps` increments modulo 2^32. */
  predicate Ahead(left: u32, right: u32, steps: nat) {
    left == Wrap32(right + steps)
  }

  /** The distance forward is the only number of increments below 2^32 that works. */
  lemma AheadByDistance(left: u32, right: u32, steps: nat)
    requires steps < 0x1_0000_0000
    ensures Ahead(left, right, steps) <==> steps == Wrap32(left - right)
  {
  }

  /**
   The comparison is the serial-number order of RFC 1982, section 3.2: newer
   means ahead by fewer than 2^31 increments, and exactly the antipodal pair has
   no order.
   */
  lemma ComparisonIsSerialNumberOrder(left: u32, right: u32)
    ensures CompareGenerations(left, right) == LEFT_NEWER
       <==> exists k: nat :: 0 < k < 0x8000_0000 && Ahead(left, right, k)
    ensures CompareGenerations(left, right) == RIGHT_NEWER
       <==> exists k: nat :: 0 < k < 0x8000_0000 && Ahead(right, left, k)
    ensures CompareGenerations(left, right) == AMBIGUOUS <==> Ahead(left, right, 0x8000_0000)
    ensures CompareGenerations(left, right) == EQUAL <==> left == right
  {
    hide Ahead;
    var d: int := Wrap32(left - right);
    var e: int := Wrap32(right - left);
    assert left != right ==> d + e == 0x1_0000_0000;
    assert left == right ==> d == 0 && e == 0;
    forall k: nat | k < 0x1_0000_0000
      ensures Ahead(left, right, k) <==> k == d
      ensures Ahead(right, left, k) <==> k == e
    {
      AheadByDistance(left, right, k);
      AheadByDistance(right, left, k);
    }
    assert Ahead(left, right, d) && Ahead(right, left, e);
  }

  datatype Basis = NEWEST | ONLY_VALID | EQUAL_IDENTICAL

  datatype Selection<+R> =
    | BothInvalid
    | EqualDisagreement
    | GenerationAmbiguous
    | Selected(basis: Basis, slot: CopySlot, generation: u32, record: R)

  /**
   Which copy is authoritative.  Encodings are canonical, so two copies hold the
   same bytes exactly when they hold the same generation and record.
   */
  function SelectCopies<R(==)>(p: CopyPair<R>): Selection<R> {
    match (p.a, p.b)
    case (Valid(ga, ra), Valid(gb, rb)) =>
      (match CompareGenerations(ga, gb)
       case EQUAL => if ra == rb then Selected(EQUAL_IDENTICAL, A, ga, ra) else EqualDisagreement
       case AMBIGUOUS => GenerationAmbiguous
       case LEFT_NEWER => Selected(NEWEST, A, ga, ra)
       case RIGHT_NEWER => Selected(NEWEST, B, gb, rb))
    case (Valid(ga, ra), _) => Selected(ONLY_VALID, A, ga, ra)
    case (_, Valid(gb, rb)) => Selected(ONLY_VALID, B, gb, rb)
    case (_, _) => BothInvalid
  }

  // ----- what a write can leave behind

  /**
   The fate of one write, commit and read-back sequence.  `Durable` is the only
   one the caller sees as success.  The others are reported as a failure or
   never reported because power was lost, and leave the target as it was,
   undecodable, or holding the new record after all.
   */
  datatype Fate = Durable | KeptOld | Torn | Landed {
    predicate Stored() {
      this == Durable || this == Landed
    }
  }

  type Fates = nat -> Fate

  /** The next `n` writes all verify. */
  predicate DurableRun(f: Fates, tick: nat, n: nat) {
    forall t :: tick <= t < tick + n ==> f(t) == Durable
  }

  function Overwrite<R>(was: Copy<R>, written: Copy<R>, fate: Fate): Copy<R> {
    match fate
    case KeptOld => was
    case Torn => Undecodable
    case _ => written
  }

  // ----- the commit discipline

  /** `slot` holds the committed record; the other copy is unusable or exactly one generation older. */
  predicate Committed<R(==)>(p: CopyPair<R>, slot: CopySlot, generation: u32, record: R) {
    && p.At(slot) == Valid(generation, record)
    && (p.At(slot.Opposite()).Valid? ==>
          p.At(slot.Opposite()).generation == Wrap32(generation - 1))
  }

  /** The pair has exactly one authoritative record, by the discipline above. */
  predicate Authoritative<R(==)>(p: CopyPair<R>) {
    && SelectCopies(p).Selected?
    && Committed(p, SelectCopies(p).slot, SelectCopies(p).generation, SelectCopies(p).record)
  }

  function WriteOpposite<R>(p: CopyPair<R>, slot: CopySlot, generation: u32, next: R, fate: Fate): CopyPair<R> {
    var target := slot.Opposite();
    With(p, target, Overwrite(p.At(target), Valid(Wrap32(generation + 1), next), fate))
  }

  /** The committed record is the one recovery selects, never a conflict and never ambiguous. */
  lemma CommittedIsSelected<R>(p: CopyPair<R>, slot: CopySlot, generation: u32, record: R)
    requires Committed(p, slot, generation, record)
    ensures SelectCopies(p).Selected?
    ensures SelectCopies(p).slot == slot
    ensures SelectCopies(p).generation == generation
    ensures SelectCopies(p).record == record
  {
    var other := p.At(slot.Opposite());
    if other.Valid? {
      assert Wrap32(generation - other.generation) == 1;
      assert Wrap32(other.generation - generation) == 0xFFFF_FFFF;
    }
  }

  /** One commit moves a committed pair to a committed pair, old or new according to the fate. */
  lemma CommitKeepsCommitted<R>(
      p: CopyPair<R>, slot: CopySlot, generation: u32, record: R, next: R, fate: Fate)
    requires Committed(p, slot, generation, record)
    ensures var q := WriteOpposite(p, slot, generation, next, fate);
      if fate.Stored() then Committed(q, slot.Opposite(), Wrap32(generation + 1), next)
      else Committed(q, slot, generation, record)
  {
  }

  // ----- every run of one pair

  /** A pair together with the owner's volatile view of it; `live` is lost after a failed commit. */
  datatype Register<R> = Register(pair: CopyPair<R>, live: bool, slot: CopySlot, generation: u32, record: R)

  datatype RegisterOp<R> = Commit(next: R, fate: Fate) | Reboot

  function RegisterStep<R(==)>(g: Register<R>, op: RegisterOp<R>): Register<R> {
    match op
    case Commit(next, fate) =>
      if !g.live then g
      else
        var pair := WriteOpposite(g.pair, g.slot, g.generation, next, fate);
        if fate == Durable
        then Register(pair, true, g.slot.Opposite(), Wrap32(g.generation + 1), next)
        else Register(pair, false, g.slot, g.generation, g.record)
    case Reboot =>
      match SelectCopies(g.pair)
      case Selected(_, slot, generation, record) => Register(g.pair, true, slot, generation, record)
      case _ => g.(live := false)
  }

  function RunRegister<R(==)>(g: Register<R>, ops: seq<RegisterOp<R>>): Register<R>
    decreases |ops|
  {
    if ops == [] then g
    else RegisterStep(RunRegister(g, ops[..|ops| - 1]), ops[|ops| - 1])
  }

  /** The reference: an atomic cell whose failed writes took effect or did not, and stop it until a reboot. */
  datatype Cell<R> = Cell(value: R, live: bool)

  function CellStep<R>(c: Cell<R>, op: RegisterOp<R>): Cell<R> {
    match op
    case Commit(next, fate) =>
      if !c.live then c else Cell(if fate.Stored() then next else c.value, fate == Durable)
    case Reboot => Cell(c.value, true)
  }

  function RunCell<R>(c: Cell<R>, ops: seq<RegisterOp<R>>): Cell<R>
    decreases |ops|
  {
    if ops == [] then c
    else CellStep(RunCell(c, ops[..|ops| - 1]), ops[|ops| - 1])
  }

  /**
   Crash-atomic commits over every run: from a committed pair, after any commits
   with any fates and any reboots, recovery selects exactly the atomic cell's
   value; two valid copies always differ by one generation; and a live owner's
   volatile view is what recovery would select.
   */
  lemma {:induction false} RegisterRunsAreAtomic<R>(g: Register<R>, ops: seq<RegisterOp<R>>)
    requires g.live && Committed(g.pair, g.slot, g.generation, g.record)
    ensures var end := RunRegister(g, ops);
      var cell := RunCell(Cell(g.record, true), ops);
      && end.live == cell.live
      && SelectCopies(end.pair).Selected?
      && SelectCopies(end.pair).record == cell.value
      && Committed(end.pair, SelectCopies(end.pair).slot, SelectCopies(end.pair).generation, cell.value)
      && (end.live ==>
            && SelectCopies(end.pair).slot == end.slot
            && SelectCopies(end.pair).generation == end.generation
            && cell.value == end.record)
    decreases |ops|
  {
    if ops == [] {
      CommittedIsSelected(g.pair, g.slot, g.generation, g.record);
    } else {
      RegisterRunsAreAtomic(g, ops[..|ops| - 1]);
      var before := RunRegister(g, ops[..|ops| - 1]);
      var after := RegisterStep(before, ops[|ops| - 1]);
      match ops[|ops| - 1]
      case Reboot =>
      case Commit(next, fate) =>
        if before.live {
          CommitKeepsCommitted(before.pair, before.slot, before.generation, before.record, next, fate);
          if fate.Stored() {
            CommittedIsSelected(after.pair, before.slot.Opposite(), Wrap32(before.generation + 1), next);
          } else {
            CommittedIsSelected(after.pair, before.slot, before.generation, before.record);
          }
        }
    }
  }

  // ----- eight pairs, as the Node's store and the Hub's ledger keep them

  type SlotIndex = i: int | 0 <= i < 8

  type Copies<R> = s: seq<CopyPair<R>> | |s| == 8
    witness [CopyPair(Missing, Missing), CopyPair(Missing, Missing), CopyPair(Missing, Missing),
             CopyPair(Missing, Missing), CopyPair(Missing, Missing), CopyPair(Missing, Missing),
             CopyPair(Missing, Missing), CopyPair(Missing, Missing)]

  ghost predicate AllMissing<R>(events: Copies<R>) {
    forall i :: 0 <= i < 8 ==> events[i] == CopyPair(Missing, Missing)
  }

  ghost predicate AllSelected<R>(events: Copies<R>) {
    forall i :: 0 <= i < 8 ==> SelectCopies(events[i]).Selected?
  }

  /** Every slot pair has one authoritative record. */
  ghost predicate AllAuthoritative<R>(events: Copies<R>) {
    forall i :: 0 <= i < 8 ==> Authoritative(events[i])
  }

  /** The records recovery would select. */
  ghost function DurableSlots<R>(events: Copies<R>): (records: seq<R>)
    requires AllAuthoritative(events)
    ensures |records| == 8
  {
    seq(8, i requires 0 <= i < 8 => SelectCopies(events[i]).record)
  }

  lemma DurableUpdate<R>(events: Copies<R>, i: SlotIndex, pair: CopyPair<R>)
    requires AllAuthoritative(events) && Authoritative(pair)
    ensures AllAuthoritative(events[i := pair])
    ensures DurableSlots(events[i := pair]) == DurableSlots(events)[i := SelectCopies(pair).record]
  {
  }

  /** The owner's volatile view of one slot. */
  datatype SlotState<+R> = SlotState(present: bool, record: R, generation: u32, activeCopy: CopySlot)

  function SlotOf<R>(selection: Selection<R>, absent: SlotState<R>): SlotState<R> {
    match selection
    case Selected(_, copy, generation, record) => SlotState(true, record, generation, copy)
    case _ => absent
  }

  function Records<R>(slots: seq<SlotState<R>>): (records: seq<R>)
    ensures |records| == |slots|
  {
    seq(|slots|, i requires 0 <= i < |slots| => slots[i].record)
  }
}
