/**
 The non-volatile storage of either device: two copies of the metadata and two
 copies of each of the eight Event slots.  The outcome of the n-th write is
 given by `fates(n)`, so a run of the firmware is a function of its inputs and
 of what the storage did.
 */
module EventFlash {
  import opened Words
  import opened EventStorage

  class Flash<M, R> {
    const fates: Fates
    var tick: nat
    var metadata: CopyPair<M>
    var events: Copies<R>

    constructor (fates: Fates)
      ensures this.fates == fates && tick == 0
      ensures metadata == CopyPair(Missing, Missing) && AllMissing(events)
    {
      this.fates := fates;
      tick := 0;
      metadata := CopyPair(Missing, Missing);
      events := seq(8, _ => CopyPair(Missing, Missing));
    }

    /** Write, commit and read back one metadata copy. */
    method WriteMetadata(slot: CopySlot, generation: u32, next: M) returns (matched: bool)
      modifies this`tick, this`metadata
      ensures tick == old(tick) + 1
      ensures matched <==> fates(old(tick)) == Durable
      ensures metadata == With(old(metadata), slot,
                               Overwrite(old(metadata).At(slot), Valid(generation, next), fates(old(tick))))
    {
      metadata := With(metadata, slot, Overwrite(metadata.At(slot), Valid(generation, next), fates(tick)));
      matched := fates(tick) == Durable;
      tick := tick + 1;
    }

    /** Write, commit and read back one Event copy. */
    method WriteEvent(index: SlotIndex, slot: CopySlot, generation: u32, next: R) returns (matched: bool)
      modifies this`tick, this`events
      ensures tick == old(tick) + 1
      ensures matched <==> fates(old(tick)) == Durable
      ensures events == old(events)[index := With(old(events)[index], slot,
                            Overwrite(old(events)[index].At(slot), Valid(generation, next), fates(old(tick))))]
    {
      var was := events[index];
      events := events[index := With(was, slot, Overwrite(was.At(slot), Valid(generation, next), fates(tick)))];
      matched := fates(tick) == Durable;
      tick := tick + 1;
    }
  }
}
