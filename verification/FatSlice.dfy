/** Runs of the FAT partition: any mix of DMA-capable and bounced requests refines the slice
    of the card from `off` to its end, faults included. */
module FatSlice {
  import opened Sectors
  import opened SdCard
  import opened FatDiskio

  datatype FatCall =
    | FatRead(sector: nat, buf: seq<Sector>, count: nat, dmaCapable: bool)
    | FatWrite(sector: nat, data: seq<Sector>, dmaCapable: bool)

  ghost predicate Legal(card: Card, off: nat, call: FatCall) {
    match call
    case FatRead(sector, buf, count, _) => count <= |buf| && off + sector + count <= |card.sectors|
    case FatWrite(sector, data, _) => off + sector + |data| <= |card.sectors|
  }

  ghost function Step(fates: Fates, off: nat, card: Card, call: FatCall): FatReply
    requires Legal(card, off, call)
  {
    match call
    case FatRead(sector, buf, count, dmaCapable) => PartRead(fates, card, off + sector, buf, count, dmaCapable)
    case FatWrite(sector, data, dmaCapable) => PartWrite(fates, card, off + sector, data, dmaCapable)
  }

  ghost function Before(card0: Card, trace: seq<FatReply>, i: nat): Card
    requires i <= |trace|
  {
    if i == 0 then card0 else trace[i - 1].card
  }

  ghost predicate IsStep(fates: Fates, off: nat, card: Card, call: FatCall, reply: FatReply) {
    Legal(card, off, call) && reply == Step(fates, off, card, call)
  }

  ghost predicate IsRun(fates: Fates, off: nat, card0: Card, calls: seq<FatCall>, trace: seq<FatReply>) {
    && |trace| == |calls| && off <= |card0.sectors|
    && forall i {:trigger calls[i]} :: 0 <= i < |calls| ==>
         IsStep(fates, off, Before(card0, trace, i), calls[i], trace[i])
  }

  /** How many sectors of a write call are known to have landed. */
  ghost function Landing(call: FatCall, was: Card, reply: FatReply): (n: nat)
    requires call.FatWrite?
  {
    var transactions := |reply.card.log| - |was.log|;
    LandedCount(|call.data|, call.dmaCapable, reply.ok, if transactions > 0 then transactions else 0)
  }

  /** The call put its data on logical sector s. */
  ghost predicate Wrote(call: FatCall, was: Card, reply: FatReply, s: nat) {
    call.FatWrite? && call.sector <= s < call.sector + Landing(call, was, reply)
  }

  /** The call's failed transaction was aimed at logical sector s. */
  ghost predicate Wrecked(call: FatCall, was: Card, reply: FatReply, s: nat) {
    && call.FatWrite? && Landing(call, was, reply) <= |call.data|
    && var landed := Landing(call, was, reply);
    && call.sector + landed <= s
    && s < call.sector + landed + WreckedCount(|call.data|, call.dmaCapable, reply.ok, landed)
  }

  /** The latest write transaction on logical sector s failed. */
  ghost predicate Suspect(card0: Card, calls: seq<FatCall>, trace: seq<FatReply>, n: nat, s: nat)
    requires n <= |calls| == |trace|
  {
    && n > 0
    && !Wrote(calls[n - 1], Before(card0, trace, n - 1), trace[n - 1], s)
    && (Wrecked(calls[n - 1], Before(card0, trace, n - 1), trace[n - 1], s) || Suspect(card0, calls, trace, n - 1, s))
  }

  /** The partition as a flat array after the first n calls: of each write, what landed. */
  ghost function Flat(off: nat, card0: Card, calls: seq<FatCall>, trace: seq<FatReply>, n: nat): (r: seq<Sector>)
    requires n <= |calls| == |trace| && off <= |card0.sectors|
    ensures |r| == |card0.sectors| - off
  {
    if n == 0 then card0.sectors[off..]
    else
      var before, call := Flat(off, card0, calls, trace, n - 1), calls[n - 1];
      if call.FatWrite? then
        var landed := Landing(call, Before(card0, trace, n - 1), trace[n - 1]);
        if landed <= |call.data| && call.sector + landed <= |before|
        then Overlay(before, call.sector, call.data[..landed]) else before
      else before
  }

  /** At every point of every run: nothing before the partition has changed, and every
      logical sector whose latest write transaction did not fail holds the last data written
      to it.  A failed request puts no more than one transaction's sectors in doubt. */
  lemma {:induction false} SliceRefined(fates: Fates, off: nat, card0: Card, calls: seq<FatCall>, trace: seq<FatReply>,
                                        i: nat)
    requires IsRun(fates, off, card0, calls, trace) && i <= |calls|
    ensures var now, flat := Before(card0, trace, i).sectors, Flat(off, card0, calls, trace, i);
            && |now| == |card0.sectors|
            && now[..off] == card0.sectors[..off]
            && forall s :: 0 <= s < |flat| && !Suspect(card0, calls, trace, i, s) ==> now[off + s] == flat[s]
  {
    hide IsStep, Wrote, Wrecked, Landing;
    if i > 0 {
      SliceRefined(fates, off, card0, calls, trace, i - 1);
      StepRefines(fates, off, card0, calls, trace, i - 1);
      FlatStep(off, card0, calls, trace, i, Before(card0, trace, i - 1));
    }
  }

  /** One more call on the flat array. */
  lemma FlatStep(off: nat, card0: Card, calls: seq<FatCall>, trace: seq<FatReply>, i: nat, was: Card)
    requires 0 < i <= |calls| == |trace| && off <= |card0.sectors| && was == Before(card0, trace, i - 1)
    requires calls[i - 1].FatWrite? ==>
               && Landing(calls[i - 1], was, trace[i - 1]) <= |calls[i - 1].data|
               && off + calls[i - 1].sector + |calls[i - 1].data| <= |card0.sectors|
    ensures var flat := Flat(off, card0, calls, trace, i);
            forall s :: 0 <= s < |flat| ==>
              flat[s] == if Wrote(calls[i - 1], was, trace[i - 1], s) then calls[i - 1].data[s - calls[i - 1].sector]
                         else Flat(off, card0, calls, trace, i - 1)[s]
  {
    hide Landing;
  }

  lemma StepRefines(fates: Fates, off: nat, card0: Card, calls: seq<FatCall>, trace: seq<FatReply>, i: nat)
    requires IsRun(fates, off, card0, calls, trace) && i < |calls|
    ensures var was, now, call := Before(card0, trace, i), trace[i].card.sectors, calls[i];
            && |now| == |was.sectors|
            && (call.FatWrite? ==>
                  && Landing(call, was, trace[i]) <= |call.data|
                  && off + call.sector + |call.data| <= |was.sectors|)
            && (forall t :: 0 <= t < |now| && !(t >= off && (Wrote(call, was, trace[i], t - off)
                                                             || Wrecked(call, was, trace[i], t - off))) ==>
                  now[t] == was.sectors[t])
            && (forall s: nat :: Wrote(call, was, trace[i], s) ==> now[off + s] == call.data[s - call.sector])
  {
    hide PartRead, PartWrite;
    var card := Before(card0, trace, i);
    assert IsStep(fates, off, card, calls[i], trace[i]);
    match calls[i]
    case FatRead(sector, buf, count, dmaCapable) =>
      PartReadServes(fates, card, off + sector, buf, count, dmaCapable);
    case FatWrite(sector, data, dmaCapable) =>
      PartWriteLands(fates, card, off + sector, data, dmaCapable);
  }

  /** Every successful read returns, sector by sector, the last data written there. */
  lemma ReadsReturnLastWrites(fates: Fates, off: nat, card0: Card, calls: seq<FatCall>, trace: seq<FatReply>, i: nat,
                              k: nat)
    requires IsRun(fates, off, card0, calls, trace) && i < |calls|
    requires calls[i].FatRead? && trace[i].ok && k < calls[i].count
    requires !Suspect(card0, calls, trace, i, calls[i].sector + k)
    ensures k < |trace[i].buf| && calls[i].sector + k < |card0.sectors| - off
    ensures trace[i].buf[k] == Flat(off, card0, calls, trace, i)[calls[i].sector + k]
  {
    hide PartRead, PartWrite, Suspect, Flat;
    var card := Before(card0, trace, i);
    assert IsStep(fates, off, card, calls[i], trace[i]);
    PartReadServes(fates, card, off + calls[i].sector, calls[i].buf, calls[i].count, calls[i].dmaCapable);
    SliceRefined(fates, off, card0, calls, trace, i);
  }
}
