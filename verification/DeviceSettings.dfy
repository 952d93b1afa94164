/**
 Persistent settings (lib/device_settings/src/device_settings.h): two record
 slots, generations compared modulo 2^32, verified saves, and a factory reset
 driven by a durable marker.
 */
module DeviceSettings {
  import opened Words
  import opened EventStorage
  import opened EventRecords

  datatype Settings = Settings(timeout: u16, contrast: u8, led: bool, diagnostics: bool, screen: u8, feedback: bool)

  const DEFAULTS := Settings(30, 207, true, true, 0, false)

  predicate ValidTimeout(value: u16) {
    value == 0 || 5 <= value <= 600
  }

  predicate ValidSettings(s: Settings) {
    ValidTimeout(s.timeout) && s.contrast >= 16 && s.screen <= 5
  }

  /** Each field out of range falls back to its default; every field valid by itself is kept. */
  function Repair(s: Settings): (r: Settings)
    ensures ValidSettings(r) && (ValidSettings(s) <==> r == s)
    ensures (ValidTimeout(s.timeout) ==> r.timeout == s.timeout) && (s.contrast >= 16 ==> r.contrast == s.contrast)
    ensures (s.screen <= 5 ==> r.screen == s.screen) && r.led == s.led && r.diagnostics == s.diagnostics && r.feedback == s.feedback
    ensures !ValidTimeout(s.timeout) ==> r.timeout == DEFAULTS.timeout
    ensures (s.contrast < 16 ==> r.contrast == DEFAULTS.contrast) && (s.screen > 5 ==> r.screen == DEFAULTS.screen)
  {
    s.(timeout := if ValidTimeout(s.timeout) then s.timeout else DEFAULTS.timeout,
       contrast := if s.contrast >= 16 then s.contrast else DEFAULTS.contrast,
       screen := if s.screen <= 5 then s.screen else DEFAULTS.screen)
  }

  // ----- the record codec

  const SETTINGS_MAGIC: Magic := [0x52, 0x4C, 0x43, 0x46]

  /** What a slot holds: nothing, bytes that do not decode, another schema, or a record (perhaps to be repaired). */
  datatype Stored = Absent | Malformed | Foreign | Recorded(generation: u32, settings: Settings)

  function Bit(on: bool, value: u8): u8 {
    if on then value else 0
  }

  function SettingsPayload(s: Settings): seq<u8> {
    Le16(s.timeout) + [s.contrast, s.screen,
                       Bit(s.led, 1) as int + Bit(s.diagnostics, 2) as int + Bit(s.feedback, 4) as int] + ZERO3
  }

  function ParseSettings(p: seq<u8>): Option<Settings>
    requires |p| == 8
  {
    var flags: int := p[4];
    if flags >= 8 || !AllZero(p[5..8]) then None
    else Some(Settings(Read16(p, 0), p[2], flags % 2 == 1, flags / 2 % 2 == 1, p[3], flags / 4 == 1))
  }

  function EncodeSettings(generation: u32, s: Settings): Option<seq<u8>> {
    if ValidSettings(s) then Some(Seal(SETTINGS_MAGIC, generation, SettingsPayload(s))) else None
  }

  /** The magic, length and CRC are right, whatever the schema. */
  predicate Intact(b: seq<u8>) {
    |b| == 24 && b[..4] == SETTINGS_MAGIC && Read16(b, 6) == 24 && Read32(b, 20) == Crc32(b[..20])
  }

  /** How recovery classifies the bytes of a slot. */
  function Classify(b: seq<u8>): Stored {
    if !Intact(b) then Malformed
    else if Read16(b, 4) != 1 then Foreign
    else
      match ParseSettings(b[12..20])
      case None => Malformed
      case Some(s) => Recorded(Read32(b, 8), s)
  }

  lemma SettingsPayloadBijection(s: Settings, p: seq<u8>)
    requires |p| == 8
    ensures |SettingsPayload(s)| == 8
    ensures ParseSettings(p) == Some(s) <==> SettingsPayload(s) == p
  {
    var q := SettingsPayload(s);
    assert q[0..2] == Le16(s.timeout) && q[5..8] == ZERO3;
    Read16OfLe16(q, 0, s.timeout);
    assert ParseSettings(q) == Some(s);
    if ParseSettings(p) == Some(s) {
      Le16OfRead16(p, 0);
      assert p[5..8] == ZERO3;
      assert p == p[0..2] + [p[2], p[3], p[4]] + p[5..8];
      assert p[4] == Bit(s.led, 1) as int + Bit(s.diagnostics, 2) as int + Bit(s.feedback, 4) as int;
    }
  }

  lemma ClassifyIsOpen(b: seq<u8>)
    ensures Classify(b).Recorded? ==> Open(SETTINGS_MAGIC, 24, b) == Opened(Classify(b).generation, b[12..20])
    ensures Open(SETTINGS_MAGIC, 24, b).Opened? ==>
      Classify(b) == match ParseSettings(b[12..20])
                     case None => Malformed
                     case Some(s) => Recorded(Open(SETTINGS_MAGIC, 24, b).generation, s)
  {
    hide Crc32, Read32, Read16, ParseSettings;
  }

  /** The bytes of a record are determined by its generation and settings, even ones still to be repaired. */
  lemma RecordBytes(generation: u32, s: Settings, b: seq<u8>)
    ensures Classify(b) == Recorded(generation, s) <==> b == Seal(SETTINGS_MAGIC, generation, SettingsPayload(s))
  {
    hide Open, Seal, Classify, ParseSettings, SettingsPayload;
    ClassifyIsOpen(b);
    SettingsPayloadBijection(s, seq(8, _ => 0));
    var payload := SettingsPayload(s);
    SettingsPayloadBijection(s, payload);
    if Classify(b) == Recorded(generation, s) {
      SealOpen(SETTINGS_MAGIC, 24, b);
      OpenedParses(b);
      SettingsPayloadBijection(s, b[12..20]);
    }
    if b == Seal(SETTINGS_MAGIC, generation, payload) {
      OpenSeal(SETTINGS_MAGIC, generation, payload);
      OpenedPayload(b);
    }
  }

  /** A slot classifies as a valid record exactly when it holds that record's encoding. */
  lemma SettingsRecordBijection(generation: u32, s: Settings, b: seq<u8>)
    requires ValidSettings(s)
    ensures Classify(b) == Recorded(generation, s) <==> EncodeSettings(generation, s) == Some(b)
  {
    hide Classify, Seal, SettingsPayload;
    RecordBytes(generation, s, b);
  }

  lemma OpenedParses(b: seq<u8>)
    requires Classify(b).Recorded?
    ensures |b| == 24 && ParseSettings(b[12..20]) == Some(Classify(b).settings)
  {
    hide ParseSettings;
  }

  lemma OpenedPayload(b: seq<u8>)
    requires Open(SETTINGS_MAGIC, 24, b).Opened?
    ensures |b| == 24 && Open(SETTINGS_MAGIC, 24, b).payload == b[12..20]
  {
  }

  // ----- specification of the manager

  datatype Marker = NoMarker | MarkerFalse | MarkerTrue | MarkerBroken

  /** The durable part; `tick` counts the operations that change it. */
  datatype SettingsStore = SettingsStore(a: Stored, b: Stored, marker: Marker, tick: nat) {
    function At(slot: CopySlot): Stored {
      if slot == A then a else b
    }
  }

  function PutSlot(d: SettingsStore, slot: CopySlot, content: Stored): SettingsStore {
    if slot == A then d.(a := content) else d.(b := content)
  }

  function Tear(was: Stored, written: Stored, fate: Fate): Stored {
    match fate
    case KeptOld => was
    case Torn => Malformed
    case _ => written
  }

  /** One change of a slot; it is reported and verified exactly when the fate is Durable. */
  function ChangeSlot(f: Fates, d: SettingsStore, slot: CopySlot, content: Stored): (SettingsStore, bool) {
    (PutSlot(d, slot, Tear(d.At(slot), content, f(d.tick))).(tick := d.tick + 1), f(d.tick) == Durable)
  }

  function WriteMarker(f: Fates, d: SettingsStore): (SettingsStore, bool) {
    var fate := f(d.tick);
    (d.(marker := match fate case KeptOld => d.marker case Torn => MarkerBroken case _ => MarkerTrue, tick := d.tick + 1),
     fate == Durable)
  }

  /** Removing a key leaves it or removes it. */
  function RemoveMarker(f: Fates, d: SettingsStore): (SettingsStore, bool) {
    (d.(marker := if f(d.tick).Stored() then NoMarker else d.marker, tick := d.tick + 1), f(d.tick) == Durable)
  }

  /** The volatile part. */
  datatype Manager = Manager(
    settings: Settings, generation: u32, active: Option<CopySlot>, repairPending: bool, foreignA: bool, foreignB: bool) {
    predicate ForeignAt(slot: CopySlot) {
      if slot == A then foreignA else foreignB
    }
  }

  const BLANK := Manager(DEFAULTS, 0, None, false, false, false)

  datatype LoadStatus =
    | LOADED | DEFAULTED_MISSING | LOADED_FALLBACK_SLOT | REPAIRED_SCHEMA_1 | DEFAULTED_CORRUPT
    | LOAD_UNSUPPORTED_SCHEMA | RESET_COMPLETED | RESET_RECOVERY_FAILED

  datatype SaveStatus =
    | SAVED | REPAIRED_SAVED | UNCHANGED | REPAIRED_UNCHANGED | SAVE_UNSUPPORTED_SCHEMA | SAVE_FAILED

  function GenerationIsNewer(candidate: u32, reference: u32): bool {
    0 < Wrap32(candidate - reference) < 0x8000_0000
  }

  /** Adopt a selected record; one that had to be repaired, or a fallback, should be saved again. */
  function Adopt(m: Manager, record: Stored, slot: CopySlot, fallback: bool): (Manager, LoadStatus)
    requires record.Recorded?
  {
    var repaired := !ValidSettings(record.settings);
    (m.(settings := Repair(record.settings), generation := record.generation, active := Some(slot),
        repairPending := repaired || fallback),
     if repaired then REPAIRED_SCHEMA_1 else if fallback then LOADED_FALLBACK_SLOT else LOADED)
  }

  /** Select between the slots when no reset is pending. */
  function SelectSlots(a: Stored, b: Stored): (Manager, LoadStatus) {
    var m := BLANK.(foreignA := a.Foreign?, foreignB := b.Foreign?);
    match (a, b)
    case (Recorded(ga, _), Recorded(gb, _)) =>
      if ga == gb then
        if a == b then Adopt(m, a, A, false) else (m.(repairPending := true), DEFAULTED_CORRUPT)
      else if GenerationIsNewer(ga, gb) then Adopt(m, a, A, false)
      else if GenerationIsNewer(gb, ga) then Adopt(m, b, B, false)
      else (m.(repairPending := true), DEFAULTED_CORRUPT)
    case (Recorded(_, _), _) => Adopt(m, a, A, b.Malformed?)
    case (_, Recorded(_, _)) => Adopt(m, b, B, a.Malformed?)
    case (_, _) =>
      if a.Foreign? || b.Foreign? then (m, LOAD_UNSUPPORTED_SCHEMA)
      else if a.Absent? && b.Absent? then (m, DEFAULTED_MISSING)
      else (m.(repairPending := true), DEFAULTED_CORRUPT)
  }

  /** Erase both slots, write the defaults, and only then drop the marker; each step is verified before the next. */
  function CompleteReset(f: Fates, m: Manager, d: SettingsStore): (Manager, SettingsStore, bool) {
    var (d1, ok1) := ChangeSlot(f, d, A, Absent);
    if !ok1 then (m, d1, false)
    else
      var (d2, ok2) := ChangeSlot(f, d1, B, Absent);
      if !ok2 then (m, d2, false)
      else
        var (d3, ok3) := ChangeSlot(f, d2, A, Recorded(1, DEFAULTS));
        if !ok3 then (m, d3, false)
        else
          var (d4, ok4) := RemoveMarker(f, d3);
          if !ok4 then (m, d4, false) else (Manager(DEFAULTS, 1, Some(A), false, false, false), d4, true)
  }

  function Load(f: Fates, d: SettingsStore): (Manager, SettingsStore, LoadStatus) {
    match d.marker
    case MarkerBroken => (BLANK, d, RESET_RECOVERY_FAILED)
    case MarkerTrue =>
      var (m, e, done) := CompleteReset(f, BLANK, d);
      (m, e, if done then RESET_COMPLETED else RESET_RECOVERY_FAILED)
    case _ =>
      var (m, status) := SelectSlots(d.a, d.b);
      (m, d, status)
  }

  function FactoryReset(f: Fates, m: Manager, d: SettingsStore): (Manager, SettingsStore, bool) {
    var (d1, ok) := WriteMarker(f, d);
    if !ok then (m, d1, false) else CompleteReset(f, m, d1)
  }

  function SaveTarget(m: Manager): CopySlot {
    match m.active
    case Some(slot) => slot.Opposite()
    case None => A
  }

  /** Whether a save gets as far as writing. */
  predicate SaveWrites(m: Manager, candidate: Settings) {
    && !(m.active.None? && (m.foreignA || m.foreignB))
    && (Repair(candidate) != m.settings || m.repairPending)
    && !m.ForeignAt(SaveTarget(m))
  }

  function Save(f: Fates, m: Manager, d: SettingsStore, candidate: Settings): (Manager, SettingsStore, SaveStatus) {
    var canonical := Repair(candidate);
    var repaired := canonical != candidate;
    if m.active.None? && (m.foreignA || m.foreignB) then (m, d, SAVE_UNSUPPORTED_SCHEMA)
    else if canonical == m.settings && !m.repairPending then (m, d, if repaired then REPAIRED_UNCHANGED else UNCHANGED)
    else if m.ForeignAt(SaveTarget(m)) then (m, d, SAVE_UNSUPPORTED_SCHEMA)
    else
      var generation := Wrap32(m.generation + 1);
      var (e, ok) := ChangeSlot(f, d, SaveTarget(m), Recorded(generation, canonical));
      if !ok then (m, e, SAVE_FAILED)
      else
        (m.(settings := canonical, generation := generation, active := Some(SaveTarget(m)), repairPending := false), e,
         if repaired then REPAIRED_SAVED else SAVED)
  }

  // ----- crash safety of saves

  /**
   While no reset is pending: `base` is what the manager shows, `held` is what a
   reload would give.  They differ only when a save that was reported as failed
   reached the slot after all.
   */
  predicate SettingsInv(m: Manager, d: SettingsStore, base: Settings, held: Settings) {
    && (d.marker == NoMarker || d.marker == MarkerFalse)
    && m.settings == base && !m.foreignA && !m.foreignB && ValidSettings(base) && ValidSettings(held)
    && match m.active
       case None =>
         && m.generation == 0 && base == DEFAULTS && d.b == Absent
         && (d.a == Recorded(1, held) || ((d.a == Absent || d.a == Malformed) && held == base))
       case Some(slot) =>
         && d.At(slot) == Recorded(m.generation, base)
         && match d.At(slot.Opposite())
            case Absent => held == base
            case Malformed => held == base
            case Foreign => false
            case Recorded(g, s) =>
              || (g == Wrap32(m.generation - 1) && held == base)
              || (g == Wrap32(m.generation + 1) && s == held)
  }

  lemma NeighbourGenerations(g: u32)
    ensures GenerationIsNewer(Wrap32(g + 1), g) && !GenerationIsNewer(g, Wrap32(g + 1)) && g != Wrap32(g + 1)
    ensures GenerationIsNewer(g, Wrap32(g - 1)) && !GenerationIsNewer(Wrap32(g - 1), g) && g != Wrap32(g - 1)
    ensures Wrap32(Wrap32(g + 1) - 1) == g && Wrap32(Wrap32(g - 1) + 1) == g
  {
    var up: int, down: int := if g == U32_MAX then 0 else g + 1, if g == 0 then 0xFFFF_FFFF else g - 1;
    assert Wrap32(g + 1) == up && Wrap32(g - 1) == down;
    assert Wrap32(up - g) == 1 && Wrap32(g - up) == 0xFFFF_FFFF;
    assert Wrap32(g - down) == 1 && Wrap32(down - g) == 0xFFFF_FFFF;
  }

  /** A reload gives exactly the held settings, and shows them. */
  lemma ReloadStep(f: Fates, m: Manager, d: SettingsStore, base: Settings, held: Settings)
    requires SettingsInv(m, d, base, held)
    ensures var (n, e, status) := Load(f, d);
      && e == d && n.settings == held && SettingsInv(n, d, held, held)
      && status !in {LOAD_UNSUPPORTED_SCHEMA, REPAIRED_SCHEMA_1, RESET_COMPLETED, RESET_RECOVERY_FAILED}
  {
    NeighbourGenerations(m.generation);
  }

  /**
   What a load without a pending reset reports: LOADED exactly when the record
   shown was valid and the other slot is not damaged, a repair or a fallback
   otherwise; and whatever is not LOADED or missing is due to be saved again.
   */
  lemma LoadReports(f: Fates, d: SettingsStore)
    requires d.marker == NoMarker || d.marker == MarkerFalse
    ensures var (m, e, status) := Load(f, d);
      var damaged := m.active.Some? && d.At(m.active.value.Opposite()).Malformed?;
      && e == d && (m.active.Some? ==> d.At(m.active.value).Recorded? && m.settings == Repair(d.At(m.active.value).settings))
      && (m.active.None? ==> m.settings == DEFAULTS)
      && (status == REPAIRED_SCHEMA_1 <==> m.active.Some? && !ValidSettings(d.At(m.active.value).settings))
      && (status == LOADED_FALLBACK_SLOT <==> m.active.Some? && ValidSettings(d.At(m.active.value).settings) && damaged)
      && (status == LOADED <==> m.active.Some? && ValidSettings(d.At(m.active.value).settings) && !damaged)
      && (status == DEFAULTED_MISSING <==> d.a.Absent? && d.b.Absent?)
      && (status == LOAD_UNSUPPORTED_SCHEMA <==> !d.a.Recorded? && !d.b.Recorded? && (d.a.Foreign? || d.b.Foreign?))
      && (m.repairPending <==> status in {REPAIRED_SCHEMA_1, LOADED_FALLBACK_SLOT, DEFAULTED_CORRUPT})
      && (m.repairPending && !m.ForeignAt(SaveTarget(m)) ==> SaveWrites(m, m.settings))
  {
    hide Repair, ValidSettings, GenerationIsNewer;
  }

  /** What a save leaves held, by its outcome and the fate of its write. */
  function HeldAfter(f: Fates, m: Manager, d: SettingsStore, candidate: Settings, base: Settings, held: Settings): Settings {
    if !SaveWrites(m, candidate) then held
    else
      match f(d.tick)
      case KeptOld => held
      case Torn => base
      case _ => Repair(candidate)
  }

  lemma SaveStep(f: Fates, m: Manager, d: SettingsStore, candidate: Settings, base: Settings, held: Settings)
    requires SettingsInv(m, d, base, held)
    ensures var (n, e, status) := Save(f, m, d, candidate);
      && SettingsInv(n, e, n.settings, HeldAfter(f, m, d, candidate, base, held))
      && (status == SAVED || status == REPAIRED_SAVED <==> SaveWrites(m, candidate) && f(d.tick) == Durable)
      && (status == UNCHANGED || status == REPAIRED_UNCHANGED <==> !SaveWrites(m, candidate))
      && (status == SAVED || status == REPAIRED_SAVED ==>
            n.settings == Repair(candidate) == HeldAfter(f, m, d, candidate, base, held))
      && (status != SAVED && status != REPAIRED_SAVED ==> n == m)
      && e.tick == d.tick + (if SaveWrites(m, candidate) then 1 else 0)
  {
    hide Repair, ValidSettings, GenerationIsNewer;
    NeighbourGenerations(m.generation);
  }

  // ----- every run of saves, factory resets, crashes and reloads

  datatype SettingsOp = SaveOp(candidate: Settings) | ReloadOp | FactoryResetOp

  /**
   `attempts` is every value ever shown or asked for, oldest first, starting with
   the defaults; `acked`, `base` and `held` index the last acknowledged save or
   reset, what the manager shows, and what a reload would give.  `dirty`: a save
   has failed since the last acknowledgement or reload.  `troubled`: a factory
   reset failed, or the last load could not recover one.
   */
  datatype SettingsRun = SettingsRun(
    m: Manager, d: SettingsStore, attempts: seq<Settings>, acked: nat, base: nat, held: nat, dirty: bool, troubled: bool)

  const EMPTY_STORE := SettingsStore(Absent, Absent, NoMarker, 0)
  const FIRST_RUN := SettingsRun(BLANK, EMPTY_STORE, [DEFAULTS], 0, 0, 0, false, false)

  function SaveRun(f: Fates, r: SettingsRun, candidate: Settings): SettingsRun {
    var (m, d, status) := Save(f, r.m, r.d, candidate);
    if !SaveWrites(r.m, candidate) then r.(m := m, d := d)
    else
      var n := |r.attempts|;
      var attempted := r.(m := m, d := d, attempts := r.attempts + [Repair(candidate)], dirty := true);
      match f(r.d.tick)
      case Durable => attempted.(acked := n, base := n, held := n, dirty := false)
      case Landed => attempted.(held := n)
      case Torn => attempted.(held := r.base)
      case KeptOld => attempted
  }

  function ResetRun(f: Fates, r: SettingsRun): SettingsRun {
    var (m, d, done) := FactoryReset(f, r.m, r.d);
    var n := |r.attempts|;
    var attempted := r.(m := m, d := d, attempts := r.attempts + [DEFAULTS]);
    if done then attempted.(acked := n, base := n, held := n, dirty := false, troubled := false)
    else attempted.(held := if f(r.d.tick) == KeptOld then r.held else n, troubled := true)
  }

  function SettingsStep(f: Fates, r: SettingsRun, op: SettingsOp): SettingsRun {
    match op
    case ReloadOp =>
      var (m, d, status) := Load(f, r.d);
      r.(m := m, d := d, base := r.held, dirty := false, troubled := status == RESET_RECOVERY_FAILED)
    case SaveOp(candidate) => SaveRun(f, r, candidate)
    case FactoryResetOp => ResetRun(f, r)
  }

  function RunSettings(f: Fates, ops: seq<SettingsOp>): SettingsRun
    decreases |ops|
  {
    if ops == [] then FIRST_RUN else SettingsStep(f, RunSettings(f, ops[..|ops| - 1]), ops[|ops| - 1])
  }

  /** After a factory reset or a load that reported a failed reset, reload with success before saving. */
  predicate Careful(f: Fates, ops: seq<SettingsOp>) {
    forall n :: 0 <= n < |ops| && ops[n].SaveOp? ==> !RunSettings(f, ops[..n]).troubled
  }

  /** After a failed reset: nothing changed, or the defaults are all a reload can give. */
  predicate Interrupted(m: Manager, d: SettingsStore, base: Settings, held: Settings) {
    match d.marker
    case MarkerTrue => held == DEFAULTS
    case MarkerBroken => held == DEFAULTS
    case _ =>
      SettingsInv(m, d, base, held) || (d.a == Recorded(1, DEFAULTS) && d.b == Absent && held == DEFAULTS)
  }

  predicate RunInv(r: SettingsRun) {
    match r
    case SettingsRun(m, d, attempts, acked, base, held, dirty, troubled) =>
      && acked <= base <= held < |attempts| && m.settings == attempts[base]
      && (if troubled then Interrupted(m, d, attempts[base], attempts[held])
          else SettingsInv(m, d, attempts[base], attempts[held]))
      && (!troubled && !dirty ==> held == base)
  }

  lemma SaveRunKeeps(f: Fates, r: SettingsRun, candidate: Settings)
    requires RunInv(r) && !r.troubled
    ensures RunInv(SaveRun(f, r, candidate))
  {
    var base, held := r.attempts[r.base], r.attempts[r.held];
    SaveStep(f, r.m, r.d, candidate, base, held);
    InvShowsBase(r.m, r.d, base, held);
    hide SettingsInv, Save, SaveWrites, Repair;
  }

  lemma ReloadRunKeeps(f: Fates, r: SettingsRun)
    requires RunInv(r)
    ensures RunInv(SettingsStep(f, r, ReloadOp))
    ensures Load(f, r.d).0.settings == r.attempts[r.held]
    ensures !r.troubled ==> Load(f, r.d).2 in {LOADED, DEFAULTED_MISSING, LOADED_FALLBACK_SLOT, DEFAULTED_CORRUPT}
  {
    var base, held := r.attempts[r.base], r.attempts[r.held];
    if SettingsInv(r.m, r.d, base, held) {
      ReloadStep(f, r.m, r.d, base, held);
      hide SettingsInv, Load;
    } else {
      ReloadInterrupted(f, r.m, r.d, base, held);
      hide SettingsInv, Load;
    }
  }

  lemma ReloadInterrupted(f: Fates, m: Manager, d: SettingsStore, base: Settings, held: Settings)
    requires Interrupted(m, d, base, held) && !SettingsInv(m, d, base, held)
    ensures var (n, e, status) := Load(f, d);
      && n.settings == held == DEFAULTS
      && if status == RESET_RECOVERY_FAILED then Interrupted(n, e, DEFAULTS, DEFAULTS) else SettingsInv(n, e, DEFAULTS, DEFAULTS)
  {
  }

  lemma ResetRunKeeps(f: Fates, r: SettingsRun)
    requires RunInv(r)
    ensures RunInv(ResetRun(f, r))
  {
    var base, held := r.attempts[r.base], r.attempts[r.held];
    ResetCases(f, r.m, r.d, base, held);
    assert r.troubled || Interrupted(r.m, r.d, base, held);
    hide SettingsInv, FactoryReset;
  }

  lemma ResetCases(f: Fates, m: Manager, d: SettingsStore, base: Settings, held: Settings)
    requires Interrupted(m, d, base, held)
    ensures var (n, e, done) := FactoryReset(f, m, d);
      && (done ==> n.settings == DEFAULTS && SettingsInv(n, e, DEFAULTS, DEFAULTS))
      && (!done ==> n == m)
      && (!done && f(d.tick) == KeptOld ==> Interrupted(n, e, base, held))
      && (!done && f(d.tick) != KeptOld ==> Interrupted(n, e, base, DEFAULTS))
  {
  }

  lemma SettingsStepKeeps(f: Fates, r: SettingsRun, op: SettingsOp)
    requires RunInv(r) && (op.SaveOp? ==> !r.troubled)
    ensures RunInv(SettingsStep(f, r, op))
  {
    hide RunInv, Load, SaveRun, ResetRun;
    match op
    case ReloadOp => ReloadRunKeeps(f, r);
    case SaveOp(candidate) => SaveRunKeeps(f, r, candidate);
    case FactoryResetOp => ResetRunKeeps(f, r);
  }

  lemma InvShowsBase(m: Manager, d: SettingsStore, base: Settings, held: Settings)
    requires SettingsInv(m, d, base, held)
    ensures m.settings == base
  {
  }

  lemma {:induction false} RunSettingsKeeps(f: Fates, ops: seq<SettingsOp>)
    requires Careful(f, ops)
    ensures RunInv(RunSettings(f, ops))
    decreases |ops|
  {
    hide SettingsStep, RunInv;
    if ops == [] {
      FirstRunInv();
    } else {
      var front := ops[..|ops| - 1];
      forall n | 0 <= n < |front| && front[n].SaveOp? ensures !RunSettings(f, front[..n]).troubled {
        assert front[..n] == ops[..n];
      }
      RunSettingsKeeps(f, front);
      SettingsStepKeeps(f, RunSettings(f, front), ops[|ops| - 1]);
    }
  }

  lemma FirstRunInv()
    ensures RunInv(FIRST_RUN)
  {
  }

  /**
   From an empty store, after any saves, factory resets and reloads with any
   fates: a reload gives the last acknowledged settings or ones attempted after
   them, never older, never mixed; what is shown is no older either; and with no
   failed reset outstanding a reload succeeds, and with no failed save outstanding
   it gives exactly what is shown.
   */
  lemma SavesAreCrashSafe(f: Fates, ops: seq<SettingsOp>)
    requires Careful(f, ops)
    ensures var r := RunSettings(f, ops);
      && r.acked <= r.base <= r.held < |r.attempts|
      && r.m.settings == r.attempts[r.base] && Load(f, r.d).0.settings == r.attempts[r.held]
      && (!r.troubled ==> Load(f, r.d).2 in {LOADED, DEFAULTED_MISSING, LOADED_FALLBACK_SLOT, DEFAULTED_CORRUPT})
      && (!r.troubled && !r.dirty ==> Load(f, r.d).0.settings == r.m.settings)
  {
    RunSettingsKeeps(f, ops);
    ReloadRunKeeps(f, RunSettings(f, ops));
    hide RunSettings, Load, SettingsInv, Interrupted;
  }

  /**
   UNCHANGED tells the truth about storage whenever no save has failed since the
   last acknowledgement or reload, and no reset is outstanding: a condition the
   caller can check before asking.
   */
  lemma UnchangedIsTruthful(f: Fates, ops: seq<SettingsOp>, candidate: Settings)
    requires Careful(f, ops) && !RunSettings(f, ops).troubled && !RunSettings(f, ops).dirty
    ensures var r := RunSettings(f, ops);
      var (n, e, status) := Save(f, r.m, r.d, candidate);
      status == UNCHANGED || status == REPAIRED_UNCHANGED ==> Load(f, e).0.settings == Repair(candidate)
  {
    SavesAreCrashSafe(f, ops);
    hide RunSettings, Load, Repair;
  }

  // ----- any sequence of failed saves

  function SaveAll(f: Fates, m: Manager, d: SettingsStore, candidates: seq<Settings>): (Manager, SettingsStore)
    decreases |candidates|
  {
    if candidates == [] then (m, d)
    else
      var (n, e) := SaveAll(f, m, d, candidates[..|candidates| - 1]);
      var (o, g, _) := Save(f, n, e, candidates[|candidates| - 1]);
      (o, g)
  }

  /** Every one of the saves writes, and every write is reported as failed. */
  predicate AllFail(f: Fates, m: Manager, tick: nat, candidates: seq<Settings>)
    decreases |candidates|
  {
    candidates != [] ==>
      var n := |candidates| - 1;
      AllFail(f, m, tick, candidates[..n]) && SaveWrites(m, candidates[n]) && f(tick + n) != Durable
  }

  /** The candidate that reached the slot and was not destroyed by a later torn write. */
  function Survivor(f: Fates, tick: nat, candidates: seq<Settings>): Option<Settings>
    decreases |candidates|
  {
    if candidates == [] then None
    else
      var n := |candidates| - 1;
      match f(tick + n)
      case KeptOld => Survivor(f, tick, candidates[..n])
      case Torn => None
      case _ => Some(Repair(candidates[n]))
  }

  function SurvivorOr(f: Fates, tick: nat, candidates: seq<Settings>, base: Settings): Settings {
    match Survivor(f, tick, candidates)
    case None => base
    case Some(s) => s
  }

  lemma {:induction false} FailedSavesHold(f: Fates, m: Manager, d: SettingsStore, base: Settings, candidates: seq<Settings>)
    requires SettingsInv(m, d, base, base) && AllFail(f, m, d.tick, candidates)
    ensures var (n, e) := SaveAll(f, m, d, candidates);
      n == m && e.tick == d.tick + |candidates| && SettingsInv(m, e, base, SurvivorOr(f, d.tick, candidates, base))
    decreases |candidates|
  {
    hide SettingsInv, Repair, SaveWrites, Save;
    if candidates != [] {
      var front, last := candidates[..|candidates| - 1], candidates[|candidates| - 1];
      var held := SurvivorOr(f, d.tick, front, base);
      FailedSavesHold(f, m, d, base, front);
      var e := SaveAll(f, m, d, front).1;
      SaveStep(f, m, e, last, base, held);
      InvShowsBase(m, e, base, held);
      assert HeldAfter(f, m, e, last, base, held) == SurvivorOr(f, d.tick, candidates, base);
      assert SaveAll(f, m, d, candidates) == (Save(f, m, e, last).0, Save(f, m, e, last).1);
    }
  }

  /**
   The exact converse: after any sequence of failed saves from a state where
   shown and stored agree, a reload gives the surviving candidate if there is one
   and the shown settings otherwise.
   */
  lemma FailedSavesDecideReload(f: Fates, m: Manager, d: SettingsStore, base: Settings, candidates: seq<Settings>)
    requires SettingsInv(m, d, base, base) && AllFail(f, m, d.tick, candidates)
    ensures var (n, e) := SaveAll(f, m, d, candidates);
      && n.settings == base
      && Load(f, e).0.settings == SurvivorOr(f, d.tick, candidates, base)
      && (Load(f, e).0.settings == n.settings <==> Survivor(f, d.tick, candidates) in {None, Some(base)})
  {
    FailedSavesHold(f, m, d, base, candidates);
    InvShowsBase(m, d, base, base);
    ReloadStep(f, m, SaveAll(f, m, d, candidates).1, base, SurvivorOr(f, d.tick, candidates, base));
    hide SettingsInv, Load, SaveAll, Survivor;
  }

  /** A concrete run in which a save answered UNCHANGED is not what the next boot loads. */
  lemma UnchangedCanBeLost()
    ensures var f: Fates := (t: nat) => if t == 1 then Landed else Durable;
      var dim := DEFAULTS.(contrast := 16);
      var dark := DEFAULTS.(led := false);
      var (m1, d1, s1) := Save(f, BLANK, EMPTY_STORE, dim);
      var (m2, d2, s2) := Save(f, m1, d1, dark);
      var (m3, d3, s3) := Save(f, m2, d2, dim);
      s1 == SAVED && s2 == SAVE_FAILED && s3 == UNCHANGED && Load(f, d3).0.settings == dark
  {
  }

  /**
   A concrete run that is not careful: a reset whose marker write was reported as
   failed but landed, then a save that is verified and acknowledged, which the
   next load discards.
   */
  lemma FailedResetDiscardsLaterSave()
    ensures var f: Fates := (t: nat) => if t == 1 then Landed else Durable;
      var dark := DEFAULTS.(led := false);
      var ops := [SaveOp(DEFAULTS.(contrast := 16)), FactoryResetOp, SaveOp(dark)];
      var r := RunSettings(f, ops);
      && r.acked == 3 && r.attempts == [DEFAULTS, DEFAULTS.(contrast := 16), DEFAULTS, dark] && r.m.settings == dark
      && Load(f, r.d).2 == RESET_COMPLETED && Load(f, r.d).0.settings == DEFAULTS
  {
    var f: Fates := (t: nat) => if t == 1 then Landed else Durable;
    var ops := [SaveOp(DEFAULTS.(contrast := 16)), FactoryResetOp, SaveOp(DEFAULTS.(led := false))];
    assert ops[..2] == [ops[0], ops[1]] && ops[..2][..1] == [ops[0]] && ops[..2][..1][..0] == [];
    var r1 := SettingsStep(f, FIRST_RUN, ops[0]);
    assert RunSettings(f, [ops[0]]) == r1;
    var r2 := SettingsStep(f, r1, ops[1]);
    assert RunSettings(f, [ops[0], ops[1]]) == r2;
    assert r2.d.marker == MarkerTrue && r2.d.tick == 2;
  }

  // ----- the marker-driven reset

  /** Once pending, the marker outlives everything until the defaults are the only record. */
  predicate ResetInv(d: SettingsStore) {
    d.marker == MarkerTrue || (d.marker == NoMarker && d.a == Recorded(1, DEFAULTS) && d.b == Absent)
  }

  function LoadTimes(f: Fates, d: SettingsStore, n: nat): SettingsStore {
    if n == 0 then d else Load(f, LoadTimes(f, d, n - 1)).1
  }

  lemma LoadKeepsReset(f: Fates, d: SettingsStore)
    requires ResetInv(d)
    ensures ResetInv(Load(f, d).1)
    ensures Load(f, d).0.settings == DEFAULTS
    ensures DurableRun(f, d.tick, 4) ==>
      && Load(f, d).1.marker == NoMarker
      && Load(f, d).2 in {RESET_COMPLETED, LOADED}
      && Load(f, d).0 == Manager(DEFAULTS, 1, Some(A), false, false, false)
  {
    assert DurableRun(f, d.tick, 4) ==>
      f(d.tick) == Durable && f(d.tick + 1) == Durable && f(d.tick + 2) == Durable && f(d.tick + 3) == Durable;
  }

  /**
   From any slots whatever, once the marker is durable: any number of interrupted
   loads followed by one uninterrupted load leaves exactly the default record and
   no marker.
   */
  lemma {:induction false} PendingResetCompletes(f: Fates, d: SettingsStore, n: nat)
    requires d.marker == MarkerTrue
    ensures var e := LoadTimes(f, d, n);
      && ResetInv(e)
      && (DurableRun(f, e.tick, 4) ==>
            && Load(f, e).0 == Manager(DEFAULTS, 1, Some(A), false, false, false)
            && Load(f, e).1.(tick := 0) == SettingsStore(Recorded(1, DEFAULTS), Absent, NoMarker, 0))
  {
    hide Load;
    if n > 0 {
      PendingResetCompletes(f, d, n - 1);
      LoadKeepsReset(f, LoadTimes(f, d, n - 1));
    }
    LoadKeepsReset(f, LoadTimes(f, d, n));
    assert ResetInv(Load(f, LoadTimes(f, d, n)).1);
  }

  /** A reset whose marker write did not take effect leaves both slots alone. */
  lemma ResetTouchesNothingBeforeMarker(f: Fates, m: Manager, d: SettingsStore)
    ensures var (n, e, done) := FactoryReset(f, m, d);
      && (f(d.tick) != Durable ==> n == m && !done && e.a == d.a && e.b == d.b)
      && (f(d.tick) == Durable ==> ResetInv(e))
      && (done ==> n == Manager(DEFAULTS, 1, Some(A), false, false, false) && e.marker == NoMarker
                   && e.a == Recorded(1, DEFAULTS) && e.b == Absent)
      && (done <==> DurableRun(f, d.tick, 5))
  {
    assert DurableRun(f, d.tick, 5) ==>
      f(d.tick) == Durable && f(d.tick + 1) == Durable && f(d.tick + 2) == Durable && f(d.tick + 3) == Durable && f(d.tick + 4) == Durable;
  }

  /**
   What decides whether a verified save is what a reload gives, all of it in place
   before the save: the marker, and the record in the slot it does not write.
   */
  predicate Prevails(m: Manager, d: SettingsStore, candidate: Settings) {
    var canonical, generation := Repair(candidate), Wrap32(m.generation + 1);
    if d.marker == MarkerTrue || d.marker == MarkerBroken then canonical == DEFAULTS
    else
      match d.At(SaveTarget(m).Opposite())
      case Recorded(g, s) =>
        if GenerationIsNewer(generation, g) then true
        else if GenerationIsNewer(g, generation) then Repair(s) == canonical
        else canonical == DEFAULTS || (g == generation && s == canonical)
      case _ => true
  }

  /** What a reload shows when `mine` stands against the other slot. */
  function Contest(mine: Stored, other: Stored): Settings
    requires mine.Recorded?
  {
    match other
    case Recorded(g, s) =>
      if GenerationIsNewer(mine.generation, g) then Repair(mine.settings)
      else if GenerationIsNewer(g, mine.generation) then Repair(s)
      else if other == mine then Repair(s)
      else DEFAULTS
    case _ => Repair(mine.settings)
  }

  lemma NewerIsAsymmetric(x: u32, y: u32)
    ensures !(GenerationIsNewer(x, y) && GenerationIsNewer(y, x)) && !GenerationIsNewer(x, x)
  {
    assert x != y ==> Wrap32(x - y) as int + Wrap32(y - x) as int == 0x1_0000_0000;
  }

  lemma SelectionSettings(a: Stored, b: Stored, slot: CopySlot)
    requires (if slot == A then a else b).Recorded?
    ensures SelectSlots(a, b).0.settings == if slot == A then Contest(a, b) else Contest(b, a)
  {
    hide Repair, GenerationIsNewer;
    if a.Recorded? && b.Recorded? {
      NewerIsAsymmetric(a.generation, b.generation);
      NewerIsAsymmetric(b.generation, b.generation);
    }
  }

  lemma AcknowledgedStore(f: Fates, m: Manager, d: SettingsStore, candidate: Settings)
    requires Save(f, m, d, candidate).2 in {SAVED, REPAIRED_SAVED}
    ensures var record := Recorded(Wrap32(m.generation + 1), Repair(candidate));
      Save(f, m, d, candidate).1 == PutSlot(d, SaveTarget(m), record).(tick := d.tick + 1)
  {
    hide Repair;
  }

  lemma MarkerShowsDefaults(f: Fates, d: SettingsStore)
    requires d.marker == MarkerTrue || d.marker == MarkerBroken
    ensures Load(f, d).0.settings == DEFAULTS
  {
  }

  lemma ReloadSelects(f: Fates, d: SettingsStore)
    requires d.marker == NoMarker || d.marker == MarkerFalse
    ensures Load(f, d).0 == SelectSlots(d.a, d.b).0
  {
  }

  /**
   For every manager and every store, sound or not: a verified save is what a
   reload gives exactly when it prevails.  Unless the settings are the defaults or
   are stored already, that is when no reset is pending and the new generation is
   ahead of the other slot's.
   */
  lemma VerifiedSaveOutlivesReload(f: Fates, m: Manager, d: SettingsStore, candidate: Settings)
    requires Save(f, m, d, candidate).2 in {SAVED, REPAIRED_SAVED}
    ensures var reloaded := Load(f, Save(f, m, d, candidate).1).0.settings;
      var other := d.At(SaveTarget(m).Opposite());
      && (reloaded == Repair(candidate) <==> Prevails(m, d, candidate))
      && (Repair(candidate) != DEFAULTS && (other.Recorded? ==> Repair(other.settings) != Repair(candidate)) ==>
            (reloaded == Repair(candidate) <==>
             && (d.marker == NoMarker || d.marker == MarkerFalse)
             && (other.Recorded? ==> GenerationIsNewer(Wrap32(m.generation + 1), other.generation))))
  {
    var e := Save(f, m, d, candidate).1;
    AcknowledgedStore(f, m, d, candidate);
    if d.marker == MarkerTrue || d.marker == MarkerBroken {
      MarkerShowsDefaults(f, e);
      hide Save, Load, Repair, GenerationIsNewer;
    } else {
      ReloadSelects(f, e);
      SelectionSettings(e.a, e.b, SaveTarget(m));
      hide Save, Load, Repair, GenerationIsNewer, SelectSlots;
    }
  }

  /** With sound slots the marker alone decides. */
  lemma MarkerDecidesReload(f: Fates, m: Manager, d: SettingsStore, base: Settings, held: Settings,
                            candidate: Settings, marker: Marker)
    requires SettingsInv(m, d, base, held)
    requires Save(f, m, d.(marker := marker), candidate).2 in {SAVED, REPAIRED_SAVED}
    ensures Load(f, Save(f, m, d.(marker := marker), candidate).1).0.settings == Repair(candidate)
       <==> marker == NoMarker || marker == MarkerFalse || Repair(candidate) == DEFAULTS
  {
    VerifiedSaveOutlivesReload(f, m, d.(marker := marker), candidate);
    NeighbourGenerations(m.generation);
    hide Repair, Load, Save, GenerationIsNewer;
  }

  /**
   A save made after a reset that failed, at whichever of its five steps, without
   reloading in between: the exact condition for it to outlive the next reload.
   When only the removal of the marker was misreported, the default record it left
   in slot A has generation 1, and a new record in slot B must be ahead of that.
   */
  lemma SaveAfterFailedReset(f: Fates, m: Manager, d: SettingsStore, base: Settings, held: Settings, candidate: Settings)
    requires SettingsInv(m, d, base, held) && !FactoryReset(f, m, d).2
    requires Save(f, m, FactoryReset(f, m, d).1, candidate).2 in {SAVED, REPAIRED_SAVED}
    ensures var e := FactoryReset(f, m, d).1;
      Load(f, Save(f, m, e, candidate).1).0.settings == Repair(candidate)
      <==>
      || Repair(candidate) == DEFAULTS
      || (&& (e.marker == NoMarker || e.marker == MarkerFalse)
          && (f(d.tick) == Durable ==> SaveTarget(m) == A || 0 < m.generation < 0x8000_0000))
  {
    var e := FactoryReset(f, m, d).1;
    VerifiedSaveOutlivesReload(f, m, e, candidate);
    FailedResetLeaves(f, m, d);
    assert Repair(DEFAULTS) == DEFAULTS;
    hide Repair, Load, Save, FactoryReset, GenerationIsNewer;
    NeighbourGenerations(m.generation);
    AheadOfFirst(m.generation);
  }

  lemma AheadOfFirst(g: u32)
    ensures GenerationIsNewer(Wrap32(g + 1), 1) <==> 0 < g < 0x8000_0000
  {
    assert Wrap32(Wrap32(g + 1) - 1) == g;
  }

  lemma FailedResetLeaves(f: Fates, m: Manager, d: SettingsStore)
    requires !FactoryReset(f, m, d).2
    ensures var e := FactoryReset(f, m, d).1;
      if f(d.tick) == Durable
      then e.marker == MarkerTrue || (e.marker == NoMarker && e.a == Recorded(1, DEFAULTS) && e.b == Absent)
      else e.a == d.a && e.b == d.b && (e.marker in {MarkerTrue, MarkerBroken} || e.marker == d.marker)
  {
  }

  // ----- such a loss is reachable with no marker in sight

  function Alternate(n: nat): Settings {
    if n % 2 == 1 then DEFAULTS.(contrast := 16) else DEFAULTS.(led := false)
  }

  /** Saves of two settings in turn. */
  function Alternating(n: nat): (ops: seq<SettingsOp>)
    ensures |ops| == n
  {
    if n == 0 then [] else Alternating(n - 1) + [SaveOp(Alternate(n))]
  }

  /** The manager and the store after `n` such saves, all verified. */
  predicate Worn(m: Manager, d: SettingsStore, n: nat) {
    && d.tick == n && m.generation == Wrap32(n) && !m.repairPending && !m.foreignA && !m.foreignB
    && m.active == (if n == 0 then None else Some(if n % 2 == 1 then A else B))
    && m.settings == (if n == 0 then DEFAULTS else Alternate(n))
    && SettingsInv(m, d, m.settings, m.settings)
  }

  lemma AlternateDiffers(n: nat)
    ensures Alternate(n + 1) != DEFAULTS && Alternate(n + 1) != Alternate(n) && ValidSettings(Alternate(n + 1))
  {
    assert (n + 1) % 2 == 1 - n % 2;
  }

  lemma WornWrites(m: Manager, d: SettingsStore, n: nat)
    requires Worn(m, d, n)
    ensures SaveWrites(m, Alternate(n + 1)) && Repair(Alternate(n + 1)) == Alternate(n + 1)
  {
    hide SettingsInv, Alternate, Wrap32;
    AlternateDiffers(n);
  }

  lemma WearStep(f: Fates, m: Manager, d: SettingsStore, n: nat)
    requires Worn(m, d, n) && f(n) == Durable
    ensures var (k, e, status) := Save(f, m, d, Alternate(n + 1));
      status == SAVED && Worn(k, e, n + 1)
  {
    var next := Alternate(n + 1);
    WornWrites(m, d, n);
    hide SettingsInv, Repair, Alternate;
    SaveStep(f, m, d, next, m.settings, m.settings);
    assert Wrap32(Wrap32(n) + 1) == Wrap32(n + 1);
  }

  lemma {:induction false} AlternatingWears(f: Fates, n: nat)
    requires forall t: nat :: t < n ==> f(t) == Durable
    ensures Worn(RunSettings(f, Alternating(n)).m, RunSettings(f, Alternating(n)).d, n)
  {
    if n > 0 {
      AlternatingWears(f, n - 1);
      assert Alternating(n)[..n - 1] == Alternating(n - 1);
      var r := RunSettings(f, Alternating(n - 1));
      WearStep(f, r.m, r.d, n - 1);
      assert RunSettings(f, Alternating(n)) == SaveRun(f, r, Alternate(n));
      hide Worn, Save, Alternate, Alternating, RunSettings;
    }
  }

  /**
   A store worn by `n` saves, a reset of which only the removal of the marker was
   misreported, then a save that is verified and acknowledged with no marker
   present: the next load discards it exactly when the shown record is in slot A
   and its generation is at least 2^31.
   */
  lemma WornResetDiscardsLaterSave(n: nat)
    ensures var f: Fates := (t: nat) => if t == n + 4 then Landed else Durable;
      var bright := DEFAULTS.(contrast := 255);
      var r := RunSettings(f, Alternating(n) + [FactoryResetOp, SaveOp(bright)]);
      && r.m.settings == bright && r.acked == |r.attempts| - 1 && r.d.marker == NoMarker
      && (Load(f, r.d).0.settings == bright <==> n % 2 == 0 || Wrap32(n) < 0x8000_0000)
  {
    var f: Fates := (t: nat) => if t == n + 4 then Landed else Durable;
    var bright := DEFAULTS.(contrast := 255);
    var r := RunSettings(f, Alternating(n));
    AlternatingWears(f, n);
    hide Worn, FactoryReset, Save, SaveWrites, Load, Repair, RunSettings, Alternating;
    ResetThenSave(f, Alternating(n), bright);
    WornStoreDiscards(f, r.m, r.d, n, bright);
  }

  lemma ResetThenSave(f: Fates, ops: seq<SettingsOp>, candidate: Settings)
    ensures RunSettings(f, ops + [FactoryResetOp, SaveOp(candidate)]) == SaveRun(f, ResetRun(f, RunSettings(f, ops)), candidate)
  {
    hide SaveRun, ResetRun;
    var n, longer := |ops|, ops + [FactoryResetOp, SaveOp(candidate)];
    assert longer[..n + 1] == ops + [FactoryResetOp] && longer[..n + 1][..n] == ops;
  }

  lemma WornStoreDiscards(f: Fates, m: Manager, d: SettingsStore, n: nat, bright: Settings)
    requires Worn(m, d, n) && DurableRun(f, n, 4) && f(n + 4) == Landed && f(n + 5) == Durable
    requires bright == DEFAULTS.(contrast := 255)
    ensures var (k, e, done) := FactoryReset(f, m, d);
      var (p, g, status) := Save(f, k, e, bright);
      && !done && e.tick == n + 5 && SaveWrites(k, bright) && p.settings == bright && g.marker == NoMarker
      && (Load(f, g).0.settings == bright <==> n % 2 == 0 || Wrap32(n) < 0x8000_0000)
  {
    MisreportedRemoval(f, m, d);
    assert Repair(bright) == bright != m.settings;
    hide FactoryReset, Load, Repair;
    SaveAfterFailedReset(f, m, d, m.settings, m.settings, bright);
  }

  lemma MisreportedRemoval(f: Fates, m: Manager, d: SettingsStore)
    requires DurableRun(f, d.tick, 4) && f(d.tick + 4) == Landed
    ensures FactoryReset(f, m, d) == (m, SettingsStore(Recorded(1, DEFAULTS), Absent, NoMarker, d.tick + 5), false)
  {
    assert f(d.tick) == f(d.tick + 1) == f(d.tick + 2) == f(d.tick + 3) == Durable;
  }
}
