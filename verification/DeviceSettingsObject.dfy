/**
 `SettingsManager` over a record store of bytes: records are encoded, written,
 read back, decoded and compared.  Each method says what its caller may rely on,
 and computes the specified step on what the bytes mean.
 */
module DeviceSettingsObject {
  import opened Words
  import opened EventStorage
  import opened DeviceSettings
  import Spec = DeviceSettings

  function Meaning(bytes: Option<seq<u8>>): Stored {
    match bytes
    case None => Absent
    case Some(b) => Classify(b)
  }

  function MarkerMeaning(byte: Option<u8>): Marker {
    match byte
    case None => NoMarker
    case Some(value) => if value == 0 then MarkerFalse else if value == 1 then MarkerTrue else MarkerBroken
  }

  /**
   Two byte slots and a marker byte.  The n-th change meets `fates(n)`: only a
   durable one is both reported and effective; a lost or torn one may still be
   reported as done, which the caller's read-back has to notice.
   */
  class RecordStore {
    const fates: Fates
    var a: Option<seq<u8>>
    var b: Option<seq<u8>>
    var marker: Option<u8>
    var tick: nat

    constructor (fates: Fates)
      ensures this.fates == fates && Content() == EMPTY_STORE
    {
      this.fates := fates;
      a, b, marker, tick := None, None, None, 0;
    }

    function Read(slot: CopySlot): Option<seq<u8>>
      reads this
    {
      if slot == A then a else b
    }

    ghost function Content(): SettingsStore
      reads this
    {
      SettingsStore(Meaning(a), Meaning(b), MarkerMeaning(marker), tick)
    }

    /** Put new bytes in a slot, or remove what is there. */
    method Change(slot: CopySlot, next: Option<seq<u8>>) returns (reported: bool)
      modifies this
      ensures tick == old(tick) + 1 && marker == old(marker) && Read(slot.Opposite()) == old(Read(slot.Opposite()))
      ensures fates(old(tick)) == Durable ==> reported && Read(slot) == next
      ensures fates(old(tick)) == Landed ==> !reported && Read(slot) == next
      ensures fates(old(tick)) == KeptOld ==> Read(slot) == old(Read(slot)) && (reported ==> Read(slot) != next)
      ensures fates(old(tick)) == Torn ==> Meaning(Read(slot)) == Malformed
      ensures Content() == ChangeSlot(fates, old(Content()), slot, Meaning(next)).0
    {
      var claimed := *;
      var left := next;
      match fates(tick) {
        case Durable => reported := true;
        case Landed => reported := false;
        case KeptOld =>
          left := Read(slot);
          reported := claimed && left != next;
        case Torn =>
          assert Classify([]) == Malformed;
          var rubbish: seq<u8> :| Classify(rubbish) == Malformed;
          left, reported := Some(rubbish), claimed;
      }
      if slot == A {
        a := left;
      } else {
        b := left;
      }
      tick := tick + 1;
    }

    method SetMarker() returns (reported: bool)
      modifies this
      ensures a == old(a) && b == old(b) && tick == old(tick) + 1
      ensures fates(old(tick)) == Durable ==> reported && marker == Some(1)
      ensures fates(old(tick)) == Landed ==> !reported && marker == Some(1)
      ensures fates(old(tick)) == KeptOld ==> marker == old(marker) && (reported ==> marker != Some(1))
      ensures fates(old(tick)) == Torn ==> MarkerMeaning(marker) == MarkerBroken
    {
      var claimed := *;
      match fates(tick) {
        case Durable => marker, reported := Some(1), true;
        case Landed => marker, reported := Some(1), false;
        case KeptOld => reported := claimed && marker != Some(1);
        case Torn => marker, reported := Some(0xFF), claimed;
      }
      tick := tick + 1;
    }

    /** A key is there or it is not: its removal does not tear. */
    method DropMarker() returns (reported: bool)
      modifies this
      ensures a == old(a) && b == old(b) && tick == old(tick) + 1
      ensures fates(old(tick)) == Durable ==> reported && marker == None
      ensures fates(old(tick)) == Landed ==> !reported && marker == None
      ensures !fates(old(tick)).Stored() ==> marker == old(marker) && (reported ==> marker != None)
    {
      var claimed := *;
      match fates(tick) {
        case Durable => marker, reported := None, true;
        case Landed => marker, reported := None, false;
        case _ => reported := claimed && marker != None;
      }
      tick := tick + 1;
    }
  }

  class SettingsManager {
    var settings: Settings
    var generation: u32
    var activeSlot: CopySlot
    var hasActiveSlot: bool
    var repairPending: bool
    var foreignA: bool
    var foreignB: bool

    constructor ()
      ensures State() == BLANK
    {
      settings, generation, activeSlot, hasActiveSlot := DEFAULTS, 0, A, false;
      repairPending, foreignA, foreignB := false, false, false;
    }

    ghost function State(): Manager
      reads this
    {
      Manager(settings, generation, if hasActiveSlot then Some(activeSlot) else None, repairPending, foreignA, foreignB)
    }

    /** The shown settings are what the active slot's bytes say, repaired. */
    ghost predicate ShowsSlot(store: RecordStore)
      reads this, store
    {
      && hasActiveSlot && Meaning(store.Read(activeSlot)).Recorded?
      && Meaning(store.Read(activeSlot)).generation == generation
      && settings == Repair(Meaning(store.Read(activeSlot)).settings)
    }

    /** `applySelected` */
    method ApplySelected(record: Stored, slot: CopySlot, fallback: bool) returns (status: LoadStatus)
      requires record.Recorded? && !repairPending
      modifies this
      ensures (State(), status) == Adopt(old(State()), record, slot, fallback)
      ensures hasActiveSlot && activeSlot == slot && generation == record.generation && settings == Repair(record.settings)
    {
      settings := Repair(record.settings);
      generation, activeSlot, hasActiveSlot := record.generation, slot, true;
      if !ValidSettings(record.settings) {
        repairPending := true;
        return REPAIRED_SCHEMA_1;
      }
      if fallback {
        repairPending := true;
        return LOADED_FALLBACK_SLOT;
      }
      return LOADED;
    }

    /**
     After a load the manager shows its active slot, or the defaults when it found
     none.  A sound store gives what it holds and is not written; a pending reset
     shows the defaults and outlives an interruption.
     */
    method Load(store: RecordStore) returns (status: LoadStatus)
      modifies this, store
      ensures settings == DEFAULTS || ShowsSlot(store)
      ensures hasActiveSlot ==> ShowsSlot(store)
      ensures forall base, held :: SettingsInv(old(State()), old(store.Content()), base, held) ==>
        settings == held && store.Content() == old(store.Content()) && SettingsInv(State(), store.Content(), held, held)
      ensures ResetInv(old(store.Content())) ==> settings == DEFAULTS && ResetInv(store.Content())
      ensures (State(), store.Content(), status) == Spec.Load(store.fates, old(store.Content()))
    {
      ghost var m, d := State(), store.Content();
      status := LoadMarked(store);
      LoadMeans(store.fates, m, d);
      hide SettingsInv, ResetInv, Spec.Load, ShowsSlot;
    }

    /** The load proper: what the marker asks for comes before the slots. */
    method LoadMarked(store: RecordStore) returns (status: LoadStatus)
      modifies this, store
      ensures settings == DEFAULTS || ShowsSlot(store)
      ensures hasActiveSlot ==> ShowsSlot(store)
      ensures (State(), store.Content(), status) == Spec.Load(store.fates, old(store.Content()))
    {
      hide CompleteReset, SelectSlots, Meaning;
      settings, generation, activeSlot, hasActiveSlot := DEFAULTS, 0, A, false;
      repairPending, foreignA, foreignB := false, false, false;
      match MarkerMeaning(store.marker) {
        case MarkerBroken =>
          return RESET_RECOVERY_FAILED;
        case MarkerTrue =>
          var done := CompleteVerifiedReset(store);
          return if done then RESET_COMPLETED else RESET_RECOVERY_FAILED;
        case _ =>
          status := Select(store);
      }
    }

    /** Classify both slots and choose: the newer usable record, compared by bytes when generations are equal. */
    method Select(store: RecordStore) returns (status: LoadStatus)
      requires State() == BLANK
      modifies this
      ensures hasActiveSlot ==> ShowsSlot(store)
      ensures !hasActiveSlot ==> settings == DEFAULTS
      ensures (State(), status) == SelectSlots(Meaning(store.a), Meaning(store.b))
    {
      var a, b := Meaning(store.a), Meaning(store.b);
      if a.Recorded? && b.Recorded? {
        EqualBytes(store.a, store.b);
      }
      hide Meaning, SelectSlots;
      status := Choose(a, b, store.a == store.b);
    }

    method Choose(a: Stored, b: Stored, sameBytes: bool) returns (status: LoadStatus)
      requires State() == BLANK
      requires a.Recorded? && b.Recorded? ==> (sameBytes <==> a == b)
      modifies this
      ensures hasActiveSlot ==>
        var record := if activeSlot == A then a else b;
        record.Recorded? && generation == record.generation && settings == Repair(record.settings)
      ensures !hasActiveSlot ==> settings == DEFAULTS
      ensures (State(), status) == SelectSlots(a, b)
    {
      hide Repair;
      foreignA, foreignB := a.Foreign?, b.Foreign?;
      if !a.Recorded? && !b.Recorded? {
        if foreignA || foreignB {
          return LOAD_UNSUPPORTED_SCHEMA;
        }
        if a.Absent? && b.Absent? {
          return DEFAULTED_MISSING;
        }
        repairPending := true;
        return DEFAULTED_CORRUPT;
      }
      if a.Recorded? && b.Recorded? {
        if a.generation == b.generation {
          if !sameBytes {
            repairPending := true;
            return DEFAULTED_CORRUPT;
          }
          status := ApplySelected(a, A, false);
        } else if GenerationIsNewer(a.generation, b.generation) {
          status := ApplySelected(a, A, false);
        } else if GenerationIsNewer(b.generation, a.generation) {
          status := ApplySelected(b, B, false);
        } else {
          repairPending := true;
          return DEFAULTED_CORRUPT;
        }
        return;
      }
      var selected, slot, other := if a.Recorded? then a else b, if a.Recorded? then A else B, if a.Recorded? then b else a;
      status := ApplySelected(selected, slot, other.Malformed?);
    }

    /**
     A completed reset leaves exactly the encoded defaults in slot A and nothing
     else; one whose marker did not verify leaves both slots and the manager alone.
     */
    method FactoryReset(store: RecordStore) returns (done: bool)
      modifies this, store
      ensures done ==>
        && settings == DEFAULTS && generation == 1 && hasActiveSlot && activeSlot == A
        && store.a == EncodeSettings(1, DEFAULTS) && store.b == None && store.marker == None
      ensures !done ==> State() == old(State())
      ensures store.fates(old(store.tick)) != Durable ==> !done && store.a == old(store.a) && store.b == old(store.b)
      ensures (State(), store.Content(), done) == Spec.FactoryReset(store.fates, old(State()), old(store.Content()))
    {
      hide CompleteReset;
      var reported := store.SetMarker();
      if !reported || store.marker != Some(1) {
        return false;
      }
      done := CompleteVerifiedReset(store);
    }

    /** Each erasure and the default record are verified before the marker is dropped, so an interruption can be resumed. */
    method CompleteVerifiedReset(store: RecordStore) returns (done: bool)
      modifies this, store
      ensures done ==>
        && settings == DEFAULTS && generation == 1 && hasActiveSlot && activeSlot == A
        && store.a == EncodeSettings(1, DEFAULTS) && store.b == None && store.marker == None
      ensures !done ==> State() == old(State())
      ensures MarkerMeaning(old(store.marker)) == MarkerTrue ==> ResetInv(store.Content())
      ensures (State(), store.Content(), done) == CompleteReset(store.fates, old(State()), old(store.Content()))
    {
      ghost var f, d0 := store.fates, store.Content();
      var removed := RemoveAndVerify(store, A);
      if !removed {
        return false;
      }
      removed := RemoveAndVerify(store, B);
      if !removed {
        return false;
      }
      var written := WriteAndVerify(store, A, 1, DEFAULTS);
      if !written {
        return false;
      }
      hide Classify, EncodeSettings, ChangeSlot;
      var dropped := store.DropMarker();
      if !dropped || store.marker != None {
        return false;
      }
      settings, generation, activeSlot, hasActiveSlot := DEFAULTS, 1, A, true;
      repairPending, foreignA, foreignB := false, false, false;
      return true;
    }

    /** `removeAndVerifySlot` */
    method RemoveAndVerify(store: RecordStore, slot: CopySlot) returns (ok: bool)
      modifies store
      ensures store.marker == old(store.marker) && store.Read(slot.Opposite()) == old(store.Read(slot.Opposite()))
      ensures ok ==> store.Read(slot) == None
      ensures (store.Content(), ok) == ChangeSlot(store.fates, old(store.Content()), slot, Absent)
    {
      hide Classify;
      var reported := store.Change(slot, None);
      return reported && store.Read(slot) == None;
    }

    /** Encode, write, read back, decode and compare; only then is a record taken to be stored. */
    method WriteAndVerify(store: RecordStore, slot: CopySlot, next: u32, canonical: Settings) returns (ok: bool)
      requires ValidSettings(canonical)
      modifies store
      ensures store.marker == old(store.marker) && store.Read(slot.Opposite()) == old(store.Read(slot.Opposite()))
      ensures ok ==> store.Read(slot) == EncodeSettings(next, canonical)
      ensures (store.Content(), ok) == ChangeSlot(store.fates, old(store.Content()), slot, Recorded(next, canonical))
    {
      var encoded := EncodeSettings(next, canonical);
      EncodedMeaning(next, canonical, encoded);
      hide Meaning, EncodeSettings, ValidSettings;
      var reported := store.Change(slot, encoded);
      EncodedMeaning(next, canonical, store.Read(slot));
      if !reported {
        return false;
      }
      ok := DecodesTo(store.Read(slot), next, canonical);
    }

    /** The read-back decodes strictly to exactly this record. */
    method DecodesTo(bytes: Option<seq<u8>>, next: u32, canonical: Settings) returns (ok: bool)
      requires ValidSettings(canonical)
      ensures ok <==> Meaning(bytes) == Recorded(next, canonical)
    {
      hide Classify;
      if bytes.None? {
        return false;
      }
      match Classify(bytes.value) {
        case Recorded(verifiedGeneration, verified) =>
          return ValidSettings(verified) && verifiedGeneration == next && verified == canonical;
        case _ =>
          return false;
      }
    }

    /**
     The slot being shown is never touched.  An acknowledged save means exactly the
     encoded settings were read back from the slot now shown; any other answer
     leaves the manager as it was.
     */
    method Save(store: RecordStore, candidate: Settings) returns (status: SaveStatus)
      modifies this, store
      ensures old(hasActiveSlot) ==> store.Read(old(activeSlot)) == old(store.Read(activeSlot))
      ensures store.marker == old(store.marker)
      ensures status == SAVED || status == REPAIRED_SAVED ==>
        && settings == Repair(candidate) && hasActiveSlot && store.Read(activeSlot) == EncodeSettings(generation, settings)
        && !repairPending && generation == Wrap32(old(generation) + 1)
      ensures status != SAVED && status != REPAIRED_SAVED ==> State() == old(State())
      ensures status == UNCHANGED || status == REPAIRED_UNCHANGED ==> settings == Repair(candidate) && store.Content() == old(store.Content())
      ensures (State(), store.Content(), status) == Spec.Save(store.fates, old(State()), old(store.Content()), candidate)
    {
      var canonical := Repair(candidate);
      hide ChangeSlot, EncodeSettings, Classify, Repair, ValidSettings;
      var repaired := canonical != candidate;
      if !hasActiveSlot && (foreignA || foreignB) {
        return SAVE_UNSUPPORTED_SCHEMA;
      }
      if canonical == settings && !repairPending {
        return if repaired then REPAIRED_UNCHANGED else UNCHANGED;
      }
      var target := if hasActiveSlot then activeSlot.Opposite() else A;
      if (target == A && foreignA) || (target == B && foreignB) {
        return SAVE_UNSUPPORTED_SCHEMA;
      }
      var next := Wrap32(generation + 1);
      var verified := WriteAndVerify(store, target, next, canonical);
      if !verified {
        return SAVE_FAILED;
      }
      settings, generation, activeSlot, hasActiveSlot, repairPending := canonical, next, target, true, false;
      return if repaired then REPAIRED_SAVED else SAVED;
    }
  }

  lemma LoadMeans(f: Fates, m: Manager, d: SettingsStore)
    ensures var (n, e, _) := Spec.Load(f, d);
      && (forall base, held :: SettingsInv(m, d, base, held) ==> n.settings == held && e == d && SettingsInv(n, e, held, held))
      && (ResetInv(d) ==> n.settings == DEFAULTS && ResetInv(e))
  {
    forall base, held | SettingsInv(m, d, base, held)
      ensures var (n, e, _) := Spec.Load(f, d); e == d && n.settings == held && SettingsInv(n, d, held, held)
    {
      ReloadStep(f, m, d, base, held);
    }
    if ResetInv(d) {
      LoadKeepsReset(f, d);
    }
    hide Spec.Load;
  }

  lemma EncodedMeaning(generation: u32, s: Settings, bytes: Option<seq<u8>>)
    requires ValidSettings(s)
    ensures EncodeSettings(generation, s).Some?
    ensures Meaning(bytes) == Recorded(generation, s) <==> bytes == EncodeSettings(generation, s)
  {
    hide Classify;
    if bytes.Some? {
      SettingsRecordBijection(generation, s, bytes.value);
    }
  }

  /** Two usable slots mean the same record exactly when they hold the same bytes. */
  lemma EqualBytes(a: Option<seq<u8>>, b: Option<seq<u8>>)
    requires Meaning(a).Recorded? && Meaning(b).Recorded?
    ensures a == b <==> Meaning(a) == Meaning(b)
  {
    hide Classify;
    RecordBytes(Meaning(a).generation, Meaning(a).settings, a.value);
    RecordBytes(Meaning(b).generation, Meaning(b).settings, b.value);
  }
}
