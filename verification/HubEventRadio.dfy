/**
 The Hub's radio boundary (lib/event_radio_integration/src/hub_event_radio.h):
 bytes heard become ledger admissions and admission responses.  The adapter
 parses packets itself instead of calling the Event decoder; the two are shown
 to agree.
 */
module HubEventRadio {
  import opened Words
  import opened EventStorage
  import opened EventProtocol
  import opened EventRecords
  import opened HubEventLedger

  datatype HubOutput =
    | Discard
    | StartEventAck(bytes: seq<u8>, status: AdmissionStatus, mutated: bool)

  /** The adapter's own parse: routed, correlatable and well shaped, but not yet validated. */
  function Parse(ids: Ids, bytes: seq<u8>): Option<Event> {
    match DecodePacket(bytes)
    case None => None
    case Some(p) =>
      if p.kind != EVENT || p.source != ids.node || p.destination != ids.hub || p.source == 0 || p.destination == 0
         || |p.payload| < COMMON_PAYLOAD_SIZE then None
      else if Read32(p.payload, 0) == 0 || Read32(p.payload, 4) == 0 || p.payload[13] > MAX_BODY_SIZE
              || |p.payload| != COMMON_PAYLOAD_SIZE + p.payload[13] as int || !CorrelatableFamily(p.opcode) then None
      else Some(RawEvent(p))
  }

  /** The Event the adapter hands to the ledger, if any. */
  function AdmitCandidate(ids: Ids, bytes: seq<u8>): Option<Event> {
    match Parse(ids, bytes)
    case None => None
    case Some(e) => if RegisteredFamily(e.content.family) && ValidEvent(e) then Some(e) else None
  }

  function ActiveCountFrom(slots: LedgerSlots, i: nat): nat
    requires i <= 8
    decreases 8 - i
  {
    if i == 8 then 0 else (if slots[i].Active() then 1 else 0) + ActiveCountFrom(slots, i + 1)
  }

  function ActiveCount(h: Ledger): nat {
    if h.healthy then ActiveCountFrom(h.slots, 0) else 0
  }

  function WireStatus(status: Admission): Option<AdmissionStatus> {
    match status
    case DURABLE_NEW_ADMISSION => Some(ADMITTED)
    case EXACT_DUPLICATE => Some(ADMITTED)
    case NO_CAPACITY => Some(CAPACITY)
    case CONTENT_MISMATCH => Some(IDENTITY_CONTENT_MISMATCH)
    case _ => None
  }

  function Answer(e: Event, status: AdmissionStatus, mutated: bool): HubOutput {
    match EncodeAdmissionResponse(MakeAdmissionResponse(e, status))
    case None => Discard
    case Some(bytes) => StartEventAck(bytes, status, mutated)
  }

  function Process(f: Fates, h: Ledger, ids: Ids, bytes: seq<u8>): (Ledger, HubOutput) {
    match Parse(ids, bytes)
    case None => (h, Discard)
    case Some(e) =>
      if !RegisteredFamily(e.content.family) then (h, Answer(e, UNSUPPORTED_EVENT, false))
      else if !ValidEvent(e) then (h, Answer(e, MALFORMED_EVENT, false))
      else
        var (g, status) := Admit(f, h, ids, e);
        match WireStatus(status)
        case None => (g, Discard)
        case Some(wire) =>
          (g, Answer(e, wire, status == DURABLE_NEW_ADMISSION && ActiveCount(g) != ActiveCount(h)))
  }

  // ----- agreement with the Event codec

  /**
   The adapter admits exactly the packets the Event decoder accepts with
   Node-to-Hub addressing, and the ledger never rejects one of those as
   misrouted, unsupported or malformed.
   */
  lemma AdapterAgreesWithDecoder(ids: Ids, bytes: seq<u8>, e: Event)
    requires ValidEndpoints(ids.node, ids.hub)
    ensures AdmitCandidate(ids, bytes) == Some(e)
       <==> DecodeEvent(bytes) == Some(e) && e.source == ids.node && e.destination == ids.hub
    ensures AdmitCandidate(ids, bytes) == Some(e) ==> ValidateAdmission(ids, e).None?
  {
    if DecodePacket(bytes).Some? && EventShaped(DecodePacket(bytes).value) {
      var p := DecodePacket(bytes).value;
      var raw := RawEvent(p);
      assert raw.content.body == Padded(p.payload[14..]);
      assert ZeroTail(raw.content);
    }
  }

  /** The wire status that answers a packet, in terms of the Event it spells. */
  function ExpectedStatus(f: Fates, h: Ledger, ids: Ids, e: Event): Option<AdmissionStatus> {
    if !RegisteredFamily(e.content.family) then Some(UNSUPPORTED_EVENT)
    else if !ValidEvent(e) then Some(MALFORMED_EVENT)
    else WireStatus(Admit(f, h, ids, e).1)
  }

  /**
   Every acknowledgement emitted decodes at the Node to a response that matches
   the Event it answers, with the status of the admission; and nothing is
   emitted for a packet that was not parsed or not stored.
   */
  lemma AcknowledgementsMatch(f: Fates, h: Ledger, ids: Ids, bytes: seq<u8>)
    requires ValidEndpoints(ids.node, ids.hub)
    ensures var (g, out) := Process(f, h, ids, bytes);
      match Parse(ids, bytes)
      case None => out == Discard && g == h
      case Some(e) =>
        match ExpectedStatus(f, h, ids, e)
        case None => out == Discard
        case Some(status) =>
          && out.StartEventAck? && out.status == status
          && DecodeAdmissionResponse(out.bytes).Some?
          && MatchesEvent(DecodeAdmissionResponse(out.bytes).value, e)
          && DecodeAdmissionResponse(out.bytes).value.status == status
  {
    hide Admit, EncodePacket, DecodePacket, DecodeAdmissionResponse;
    if Parse(ids, bytes).Some? {
      var e := Parse(ids, bytes).value;
      ParsedIsCorrelatable(ids, bytes);
      if ExpectedStatus(f, h, ids, e).Some? {
        ResponseRoundTrip(MakeAdmissionResponse(e, ExpectedStatus(f, h, ids, e).value));
      }
    }
  }

  /** The acknowledgement carries this status, and the Node takes it as the answer to `e`. */
  predicate Acknowledges(out: HubOutput, e: Event, status: AdmissionStatus) {
    && out.StartEventAck? && out.status == status
    && match DecodeAdmissionResponse(out.bytes)
       case None => false
       case Some(r) =>
         && r.status == status && r.source == e.destination && r.destination == e.source
         && r.sequence == e.sequence && r.family == e.content.family && r.identity == e.identity
  }

  lemma AcknowledgedAs(f: Fates, h: Ledger, ids: Ids, bytes: seq<u8>)
    requires ValidEndpoints(ids.node, ids.hub) && Parse(ids, bytes).Some?
    ensures var e := Parse(ids, bytes).value;
      match ExpectedStatus(f, h, ids, e)
      case None => Process(f, h, ids, bytes).1 == Discard
      case Some(status) => Acknowledges(Process(f, h, ids, bytes).1, e, status)
  {
    AcknowledgementsMatch(f, h, ids, bytes);
    hide Process, Parse, DecodeAdmissionResponse, ExpectedStatus;
  }

  /**
   Which answer means what, by the slots of the ledger before the packet: a known
   Event with equal content is ADMITTED again and nothing changes; one with other
   content is a mismatch; with no room the answer is CAPACITY; and an Event that
   is new and has room is ADMITTED exactly when it was stored.
   */
  lemma AnswersSayWhatHappened(f: Fates, h: Ledger, ids: Ids, bytes: seq<u8>)
    requires LedgerInv(h, ids) && ValidEndpoints(ids.node, ids.hub) && Parse(ids, bytes).Some?
    ensures var e := Parse(ids, bytes).value;
      var (g, out) := Process(f, h, ids, bytes);
      if !RegisteredFamily(e.content.family) then Acknowledges(out, e, UNSUPPORTED_EVENT) && g == h
      else if !ValidEvent(e) then Acknowledges(out, e, MALFORMED_EVENT) && g == h
      else if !h.healthy then out == Discard && g == h
      else if OwnsContent(h.slots, e, true) then Acknowledges(out, e, ADMITTED) && !out.mutated && g == h
      else if OwnsContent(h.slots, e, false) then Acknowledges(out, e, IDENTITY_CONTENT_MISMATCH) && g == h
      else if !Room(h.slots, e) then Acknowledges(out, e, CAPACITY) && g == h
      else if Admit(f, h, ids, e).1 == DURABLE_NEW_ADMISSION
      then Acknowledges(out, e, ADMITTED) && OwnsContent(g.slots, e, true)
      else out == Discard
  {
    var e := Parse(ids, bytes).value;
    AcknowledgedAs(f, h, ids, bytes);
    if RegisteredFamily(e.content.family) && ValidEvent(e) {
      assert AdmitCandidate(ids, bytes) == Some(e);
      AdapterAgreesWithDecoder(ids, bytes, e);
      AdmissionDecided(f, h, ids, e);
      AdmitStep(f, h, ids, e);
      if Admit(f, h, ids, e).1 == DURABLE_NEW_ADMISSION {
        var g := Admit(f, h, ids, e).0;
        var i: SlotIndex, ordinal: u32 :| AdmittedInto(h, g, e, i, ordinal);
        assert Owns(g.slots[i], e.source, e.identity) && g.slots[i].content == e.content;
      }
      hide Parse, Admit, LedgerInv, Acknowledges, ValidEvent, AdmitCandidate, Room, OwnsContent;
    }
  }

  /**
   A lost acknowledgement is made good: while the ledger still owns an Event,
   ACTIVE or consumed, any packet that spells it is ADMITTED again, and the ledger
   does not change.
   */
  lemma RedeliveryIsAdmitted(f: Fates, h: Ledger, ids: Ids, bytes: seq<u8>)
    requires LedgerInv(h, ids) && ValidEndpoints(ids.node, ids.hub) && h.healthy
    requires DecodeEvent(bytes).Some? && DecodeEvent(bytes).value.source == ids.node && DecodeEvent(bytes).value.destination == ids.hub
    requires OwnsContent(h.slots, DecodeEvent(bytes).value, true)
    ensures Process(f, h, ids, bytes).0 == h
    ensures Acknowledges(Process(f, h, ids, bytes).1, DecodeEvent(bytes).value, ADMITTED)
    ensures !Process(f, h, ids, bytes).1.mutated
  {
    var e := DecodeEvent(bytes).value;
    AdapterAgreesWithDecoder(ids, bytes, e);
    assert AdmitCandidate(ids, bytes) == Some(e);
    hide DecodeEvent, LedgerInv, Process, Acknowledges, OwnsContent, Room, ValidEvent;
    AnswersSayWhatHappened(f, h, ids, bytes);
  }

  lemma ParsedIsCorrelatable(ids: Ids, bytes: seq<u8>)
    requires ValidEndpoints(ids.node, ids.hub) && Parse(ids, bytes).Some?
    ensures var e := Parse(ids, bytes).value;
      && ValidIdentity(e.identity) && CorrelatableFamily(e.content.family)
      && e.source == ids.node && e.destination == ids.hub
  {
  }

  lemma {:induction false} CountAfterUpdate(slots: LedgerSlots, i: nat, k: SlotIndex, r: HubRecord)
    requires i <= 8
    ensures ActiveCountFrom(slots[k := r], i)
         == ActiveCountFrom(slots, i) + (if i <= k then (if r.Active() then 1 else 0) - (if slots[k].Active() then 1 else 0) else 0)
    decreases 8 - i
  {
    if i < 8 {
      CountAfterUpdate(slots, i + 1, k, r);
    }
  }

  /** A new admission always raises the active count, so it is always reported as a mutation. */
  lemma NewAdmissionIsReported(f: Fates, h: Ledger, ids: Ids, bytes: seq<u8>)
    requires LedgerInv(h, ids) && ValidEndpoints(ids.node, ids.hub)
    ensures var (g, out) := Process(f, h, ids, bytes);
      out.StartEventAck? ==>
        (out.mutated <==> AdmitCandidate(ids, bytes).Some?
                          && Admit(f, h, ids, AdmitCandidate(ids, bytes).value).1 == DURABLE_NEW_ADMISSION)
  {
    hide Parse, Admit, LedgerInv, EncodeAdmissionResponse, Frontier, ValidEvent;
    if AdmitCandidate(ids, bytes).Some? {
      var e := AdmitCandidate(ids, bytes).value;
      AdmitStep(f, h, ids, e);
      var (g, status) := Admit(f, h, ids, e);
      if status == DURABLE_NEW_ADMISSION {
        var i: SlotIndex, ordinal: u32 :| AdmittedInto(h, g, e, i, ordinal);
        CountAfterUpdate(h.slots, 0, i, NewEntry(e, ordinal));
      }
    }
  }
}
