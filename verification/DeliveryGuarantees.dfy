/**
 The way an Event takes when nothing is lost: from the head of the Node's queue
 into the Hub's ledger, and out of the Node's custody again.
 */
module DeliveryGuarantees {
  import opened Words
  import opened EventStorage
  import opened EventProtocol
  import opened EventRecords
  import opened EventIdentity
  import opened NodeEventStore
  import opened NodeEventPolicy
  import opened NodeEventDelivery
  import Hub = HubEventLedger
  import opened HubEventRadio
  import opened EventPipeline
  import opened DeliveryProgress
  import opened RetryGuarantees
  import LedgerGuarantees

  /** The Event of the queue head, under a sequence number. */
  function HeadEvent(w: World, ends: Endpoints, sequence: u8): Event {
    if ActiveRecord(w.node).Held? then AttemptEvent(ends, sequence, ActiveRecord(w.node)) else NO_EVENT
  }

  /** The attempt at `e` is in flight from slot `i`. */
  predicate InAir(n: Node, i: SlotIndex, e: Event, phase: Phase) {
    && Usable(n) && n.ctl.active && n.ctl.slot == i && n.ctl.phase == phase && n.ctl.attempt == e
    && SlotsOf(n)[i].Queued() && SlotsOf(n)[i].identity == e.identity
  }

  /** So it is, and its packet is the last on the air. */
  predicate Flying(w: World, i: SlotIndex, e: Event, phase: Phase) {
    InAir(w.node, i, e, phase) && w.air != [] && DecodeEvent(w.air[|w.air| - 1]) == Some(e)
  }

  ghost predicate Sound(f: Fates, w: World, ends: Endpoints) {
    WorldInv(w, ends) && WorksFrom(f, w.node.policy.store.tick)
  }

  lemma HeadDecodes(w: World, ends: Endpoints, sequence: u8, bytes: seq<u8>)
    requires WorldInv(w, ends) && ActiveRecord(w.node).Held?
    requires EncodeEvent(HeadEvent(w, ends, sequence)) == Some(bytes)
    ensures DecodeEvent(bytes) == Some(HeadEvent(w, ends, sequence))
  {
    assert ValidNodeRecord(ActiveRecord(w.node));
    hide WorldInv, EncodePacket, DecodePacket, EventPacket;
    EventRoundTrip(HeadEvent(w, ends, sequence));
  }

  lemma Departs(f: Fates, g: Fates, ends: Endpoints, w: World, now: u32, sequence: u8)
    requires Sound(f, w, ends) && ValidEndpoints(ends.source, ends.hub) && Usable(w.node) && w.node.ctl.phase == READY_TO_SEND
    ensures ActiveRecord(w.node).Held? && w.node.ctl.slot < 8
    ensures var v := Step(f, g, ends, w, Grant(now, Some(sequence)));
      var e := HeadEvent(w, ends, sequence);
      && Sound(f, v, ends) && v.hub == w.hub && v.acks == w.acks
      && (Gone(v.node, w.node.ctl.slot, e.identity)
          || (Flying(v, w.node.ctl.slot, e, TX) && |v.air| == |w.air| + 1))
  {
    SoundNode(f, w, ends);
    ReadyFollows(w, ends);
    hide Sound, WorldInv, Step, GrantTransmit, EncodeEvent, DecodeEvent, InAir, Gone, Follows, NodeInv, WorksFrom;
    var (m, result) := GrantTransmit(f, ends, w.node, now, Some(sequence));
    GrantDeparts(f, w, now, sequence, ends);
    GrantedAs(f, g, ends, w, now, sequence);
    SoundStep(f, g, ends, w, Grant(now, Some(sequence)));
    if !Gone(m, w.node.ctl.slot, HeadEvent(w, ends, sequence).identity) {
      HeadDecodes(w, ends, sequence, result.action.bytes);
    }
  }

  lemma GrantedAs(f: Fates, g: Fates, ends: Endpoints, w: World, now: u32, sequence: u8)
    ensures var v := Step(f, g, ends, w, Grant(now, Some(sequence)));
      var (m, result) := GrantTransmit(f, ends, w.node, now, Some(sequence));
      && v.node == m && v.hub == w.hub && v.acks == w.acks
      && v.air == if result.action.Transmit? then w.air + [result.action.bytes] else w.air
  {
    hide GrantTransmit, FreedQueued, FreedTerminal;
  }

  lemma GrantDeparts(f: Fates, w: World, now: u32, sequence: u8, ends: Endpoints)
    requires WorldInv(w, ends) && NodeInv(w.node, ends) && ValidEndpoints(ends.source, ends.hub)
    requires WorksFrom(f, w.node.policy.store.tick) && Usable(w.node) && w.node.ctl.phase == READY_TO_SEND
    requires ActiveRecord(w.node).Held? && w.node.ctl.slot < 8
    ensures var (m, result) := GrantTransmit(f, ends, w.node, now, Some(sequence));
      var e := HeadEvent(w, ends, sequence);
      && m.policy.store.tick >= w.node.policy.store.tick
      && (Gone(m, w.node.ctl.slot, e.identity)
          || (InAir(m, w.node.ctl.slot, e, TX) && result.action.Transmit? && EncodeEvent(e) == Some(result.action.bytes)))
  {
    ReadyFollows(w, ends);
    var n := w.node;
    var i, x := n.ctl.slot, ActiveRecord(n).identity;
    var r := Retry(Ready, ActiveRecord(n).attempts, CountSent(w.air, x));
    SoundPolicy(n, ends);
    hide WorldInv, NodeInv, PolicyInv, GrantTransmit, CountSent, EncodeEvent, Service, WorksFrom;
    GrantFollows(f, n, now, Some(sequence), ends, i, x, r);
    if Outlives(f, n, now) {
      ChargingWorks(f, n, now, ends.source);
      HeadAges(f, n, now, ends.source);
      WorksAt(f, n.policy.store.tick, Charged(f, n, now).store.tick);
      GrantEffects(f, n, now, Some(sequence), ends);
    } else {
      LapsedGrantIsGone(f, n, now, sequence, ends, i, x, r);
    }
  }

  lemma SoundPolicy(n: Node, ends: Endpoints)
    requires NodeInv(n, ends)
    ensures PolicyInv(n.policy, ends.source)
  {
  }

  lemma LapsedGrantIsGone(f: Fates, n: Node, now: u32, sequence: u8, ends: Endpoints, i: SlotIndex, x: Identity, r: Retry)
    requires NodeInv(n, ends) && WorksFrom(f, n.policy.store.tick) && Follows(n, i, x, r) && r.stage == Ready
    requires !Outlives(f, n, now)
    ensures Gone(GrantTransmit(f, ends, n, now, Some(sequence)).0, i, x)
  {
    hide PolicyInv, Service, GrantTransmit, WorksFrom;
    ChargingWorks(f, n, now, ends.source);
    HeadAges(f, n, now, ends.source);
    LapseEffects(f, n, now, false, 0, Some(sequence), [], ends);
  }

  lemma SoundStep(f: Fates, g: Fates, ends: Endpoints, w: World, op: Op)
    requires Sound(f, w, ends) && ValidEndpoints(ends.source, ends.hub)
    requires Step(f, g, ends, w, op).node.policy.store.tick >= w.node.policy.store.tick
    ensures Sound(f, Step(f, g, ends, w, op), ends)
  {
    hide WorldInv, Step;
    StepKeepsInv(f, g, ends, w, op);
  }

  lemma CompletedWaits(f: Fates, n: Node, now: u32, ends: Endpoints, i: SlotIndex, e: Event)
    requires NodeInv(n, ends) && WorksFrom(f, n.policy.store.tick) && InAir(n, i, e, TX)
    ensures var m := TxCompleted(f, n, now).0;
      (Gone(m, i, e.identity) || InAir(m, i, e, WAIT_ADMISSION)) && m.policy.store.tick >= n.policy.store.tick
  {
    SoundPolicy(n, ends);
    hide PolicyInv, TxCompleted, Service, WorksFrom;
    ChargingWorks(f, n, now, ends.source);
    HeadAges(f, n, now, ends.source);
    if Outlives(f, n, now) {
      RadioEffects(f, n, now, 0, ends);
    } else {
      LapseEffects(f, n, now, false, 0, None, [], ends);
    }
  }

  lemma Lands(f: Fates, g: Fates, ends: Endpoints, w: World, now: u32, i: SlotIndex, e: Event)
    requires Sound(f, w, ends) && ValidEndpoints(ends.source, ends.hub) && Flying(w, i, e, TX)
    ensures var v := Step(f, g, ends, w, Completed(now));
      && Sound(f, v, ends) && v.hub == w.hub && v.acks == w.acks && v.air == w.air
      && (Gone(v.node, i, e.identity) || Flying(v, i, e, WAIT_ADMISSION))
  {
    SoundNode(f, w, ends);
    hide Sound, Step, TxCompleted, DecodeEvent, InAir, Gone;
    CompletedStep(f, g, ends, w, now);
    CompletedWaits(f, w.node, now, ends, i, e);
    SoundStep(f, g, ends, w, Completed(now));
  }

  lemma SoundNode(f: Fates, w: World, ends: Endpoints)
    requires Sound(f, w, ends)
    ensures WorldInv(w, ends) && NodeInv(w.node, ends) && WorksFrom(f, w.node.policy.store.tick)
  {
    hide NodeInv, WorksFrom;
  }

  lemma CompletedStep(f: Fates, g: Fates, ends: Endpoints, w: World, now: u32)
    ensures var v := Step(f, g, ends, w, Completed(now));
      v.node == TxCompleted(f, w.node, now).0 && v.hub == w.hub && v.acks == w.acks && v.air == w.air
  {
    hide TxCompleted, FreedQueued, FreedTerminal;
  }

  /** The Hub can store the Event, or owns it already. */
  ghost predicate Welcome(g: Fates, h: Hub.Ledger, e: Event) {
    && LedgerGuarantees.Ready(h) && DurableRun(g, h.tick, LedgerGuarantees.AdmissionWrites(h))
    && (Hub.OwnsContent(h.slots, e, true) || (Hub.Unowned(h.slots, e) && Hub.Room(h.slots, e)))
  }

  lemma Arrives(f: Fates, g: Fates, ends: Endpoints, w: World, i: SlotIndex, e: Event)
    requires Sound(f, w, ends) && ValidEndpoints(ends.source, ends.hub) && Flying(w, i, e, WAIT_ADMISSION)
    requires e.source == ends.source && e.destination == ends.hub && Welcome(g, w.hub, e)
    ensures var v := Step(f, g, ends, w, Deliver(|w.air| - 1));
      && Sound(f, v, ends) && v.node == w.node && v.air == w.air && |v.acks| == |w.acks| + 1
      && AnswersAttempt(v.node, v.acks[|w.acks|], ADMITTED)
  {
    var packet := w.air[|w.air| - 1];
    assert Hub.LedgerInv(w.hub, HubIds(ends));
    hide WorldInv, Hub.LedgerInv, Process, DecodeEvent, DecodeAdmissionResponse, LedgerGuarantees.Ready, Hub.OwnsContent,
      Hub.Unowned, Hub.Room, AdmitCandidate, Hub.Admit, WorksFrom;
    LedgerGuarantees.EveryEventIsAnswered(g, w.hub, HubIds(ends), packet, e);
    assert Acknowledges(Process(g, w.hub, HubIds(ends), packet).1, e, ADMITTED);
    DeliveredBy(f, g, ends, w, packet);
    hide Delivered, Sound;
    SoundStep(f, g, ends, w, Deliver(|w.air| - 1));
  }

  lemma DeliveredBy(f: Fates, g: Fates, ends: Endpoints, w: World, packet: seq<u8>)
    requires w.air != [] && packet == w.air[|w.air| - 1]
    ensures var v := Step(f, g, ends, w, Deliver(|w.air| - 1));
      var out := Process(g, w.hub, HubIds(ends), packet).1;
      && v.node == w.node && v.air == w.air && v.acks == if out.StartEventAck? then w.acks + [out.bytes] else w.acks
  {
    hide Process, AdmitCandidate, Hub.Admit;
  }

  lemma AnswerReleases(f: Fates, n: Node, packet: seq<u8>, now: u32, jitter: u16, ends: Endpoints, i: SlotIndex, e: Event)
    requires NodeInv(n, ends) && WorksFrom(f, n.policy.store.tick) && InAir(n, i, e, WAIT_ADMISSION)
    requires AnswersAttempt(n, packet, ADMITTED)
    ensures var m := AdmissionCandidate(f, n, packet, now, jitter).0;
      || Gone(m, i, e.identity)
      || (SlotsOf(m)[i].Free? && m.ctl.phase == RELEASED && Usable(m) && e.identity in FreedQueued(SlotsOf(n), SlotsOf(m)))
  {
    SoundPolicy(n, ends);
    hide PolicyInv, AdmissionCandidate, Service, WorksFrom, DecodeAdmissionResponse, AnswersAttempt;
    ChargingWorks(f, n, now, ends.source);
    HeadAges(f, n, now, ends.source);
    WorksAt(f, n.policy.store.tick, Charged(f, n, now).store.tick);
    if Outlives(f, n, now) {
      AnswerEffects(f, n, packet, now, jitter, ends);
      assert Answered(f, n.ctl, Charged(f, n, now), AdmissionCandidate(f, n, packet, now, jitter).0, ADMITTED, now, jitter);
    } else {
      LapseEffects(f, n, now, false, jitter, None, packet, ends);
    }
  }

  lemma Released(f: Fates, g: Fates, ends: Endpoints, w: World, packet: seq<u8>, now: u32, jitter: u16, i: SlotIndex, e: Event)
    requires Sound(f, w, ends) && ValidEndpoints(ends.source, ends.hub) && Flying(w, i, e, WAIT_ADMISSION)
    requires packet in w.acks && AnswersAttempt(w.node, packet, ADMITTED)
    ensures var v := Step(f, g, ends, w, Hear(packet, now, jitter));
      Gone(v.node, i, e.identity) ||
        (SlotsOf(v.node)[i].Free? && v.node.ctl.phase == RELEASED && Usable(v.node)
         && e.identity in v.past.released && InHubCustody(v, e.identity))
  {
    SoundNode(f, w, ends);
    HeardKeepsInv(f, g, ends, w, Hear(packet, now, jitter));
    hide Sound, Step, AdmissionCandidate, DecodeEvent, InHubCustody, InAir, AnswersAttempt, Gone, FreedQueued;
    HeardStep(f, g, ends, w, packet, now, jitter);
    ReleasedIsBacked(Step(f, g, ends, w, Hear(packet, now, jitter)), ends);
    AnswerReleases(f, w.node, packet, now, jitter, ends, i, e);
  }

  lemma HeardKeepsInv(f: Fates, g: Fates, ends: Endpoints, w: World, op: Op)
    requires Sound(f, w, ends) && ValidEndpoints(ends.source, ends.hub)
    ensures WorldInv(Step(f, g, ends, w, op), ends)
  {
    hide WorldInv, Step;
    StepKeepsInv(f, g, ends, w, op);
  }

  lemma HeardStep(f: Fates, g: Fates, ends: Endpoints, w: World, packet: seq<u8>, now: u32, jitter: u16)
    requires packet in w.acks
    ensures var v := Step(f, g, ends, w, Hear(packet, now, jitter));
      var m := AdmissionCandidate(f, w.node, packet, now, jitter).0;
      v.node == m && v.past.released == w.past.released + FreedQueued(SlotsOf(w.node), SlotsOf(m))
  {
    hide AdmissionCandidate, FreedQueued, FreedTerminal, DecodeAdmissionResponse;
  }

  lemma ReleasedIsBacked(w: World, ends: Endpoints)
    requires WorldInv(w, ends)
    ensures forall x :: x in w.past.released ==> InHubCustody(w, x)
  {
    hide NodeInv, NodeSide, AirSide, HubSide, Hub.LedgerInv, Honest, InHubCustody;
  }

  /**
   Delivery completes.  From any reachable state with working storage, an Event
   ready to send whose packet arrives at a Hub that can store it or owns it
   already, and whose acknowledgement arrives back, leaves the Node's custody and is
   in the Hub's, unless it expires on the way.
   */
  lemma DeliveryCompletes(f: Fates, g: Fates, ends: Endpoints, w: World, sequence: u8, grant: u32, completed: u32, heard: u32,
                          jitter: u16)
    requires Sound(f, w, ends) && ValidEndpoints(ends.source, ends.hub) && Usable(w.node) && w.node.ctl.phase == READY_TO_SEND
    requires Welcome(g, w.hub, HeadEvent(w, ends, sequence))
    ensures w.node.ctl.slot < 8
    ensures var (i, x) := (w.node.ctl.slot, HeadEvent(w, ends, sequence).identity);
      var sent := Step(f, g, ends, w, Grant(grant, Some(sequence)));
      var waiting := Step(f, g, ends, sent, Completed(completed));
      var stored := Step(f, g, ends, waiting, Deliver(|w.air|));
      || Gone(sent.node, i, x) || Gone(waiting.node, i, x)
      || (&& |stored.acks| == |w.acks| + 1
          && var done := Step(f, g, ends, stored, Hear(stored.acks[|w.acks|], heard, jitter));
          || Gone(done.node, i, x)
          || (SlotsOf(done.node)[i].Free? && done.node.ctl.phase == RELEASED && Usable(done.node)
              && x in done.past.released && InHubCustody(done, x)))
  {
    hide Sound, Step, Welcome, Flying, Gone, InHubCustody;
    Departs(f, g, ends, w, grant, sequence);
    var i, e := w.node.ctl.slot, HeadEvent(w, ends, sequence);
    var sent := Step(f, g, ends, w, Grant(grant, Some(sequence)));
    if !Gone(sent.node, i, e.identity) {
      Lands(f, g, ends, sent, completed, i, e);
      var waiting := Step(f, g, ends, sent, Completed(completed));
      if !Gone(waiting.node, i, e.identity) {
        Arrives(f, g, ends, waiting, i, e);
        var stored := Step(f, g, ends, waiting, Deliver(|w.air|));
        StillFlying(waiting, stored, i, e);
        Released(f, g, ends, stored, stored.acks[|w.acks|], heard, jitter, i, e);
      }
    }
  }

  lemma StillFlying(w: World, v: World, i: SlotIndex, e: Event)
    requires Flying(w, i, e, WAIT_ADMISSION) && v.node == w.node && v.air == w.air
    ensures Flying(v, i, e, WAIT_ADMISSION)
  {
  }
}
