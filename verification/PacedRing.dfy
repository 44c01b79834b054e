/** The paced sender's slot ring: a producer that stages packets into slots and a pacer thread
    that sends them, sharing slot states and a bounded channel of slot indices. Every atomic
    access of either thread is one action, and a run is any interleaving of actions; release
    and acquire accesses are taken as sequentially consistent. */
module PacedRing {
  import opened Words

  const MAX_PACKET: nat := 1500

  datatype SlotState = FREE | WRITING | READY | SENDING

  /** A packet to stage: first encoded as `raw`, then transformed in place into `wire`. */
  datatype Job = Job(raw: seq<u8>, wire: seq<u8>) {
    predicate Fits() { |raw| == |wire| <= MAX_PACKET }
  }

  /** Where the producer is in `stage_and_send`. */
  datatype Producer =
    | Idle
    | Claim(slot: nat, job: Job)
    | Fill(slot: nat, job: Job, k: nat)
    | StoreLen(slot: nat, job: Job)
    | Publish(slot: nat, job: Job)
    | Enqueue(slot: nat, job: Job)
    | Reclaim(slot: nat)

  /** Where the pacer thread is in `send_loop`. */
  datatype Pacer =
    | Top
    | Receive
    | Take(slot: nat)
    | LoadLen(slot: nat)
    | Transmit(slot: nat, len: nat, read: seq<u8>)
    | Release(slot: nat)
    | Stopped

  datatype Ring = Ring(
    bufs: seq<seq<u8>>, lens: seq<nat>, states: seq<SlotState>, chan: seq<nat>, head: nat, stop: bool,
    prod: Producer, pacer: Pacer,
    accepted: seq<seq<u8>>,  // packets whose slot entered the channel, in order
    handed: seq<seq<u8>>)    // packets handed to the socket, in order

  /** `timeout` lets a receive give up; `again` makes a finished transmit report a full socket. */
  datatype Action = Stage(job: Job) | Produce | Pace(timeout: bool, again: bool) | Stop

  ghost predicate Shaped(r: Ring) {
    && |r.states| > 0 && |r.bufs| == |r.lens| == |r.states| && r.head < |r.states|
    && FullBuffers(r.bufs) && (forall i :: 0 <= i < |r.lens| ==> r.lens[i] <= MAX_PACKET)
    && (forall i :: 0 <= i < |r.chan| ==> r.chan[i] < |r.states|)
    && ProducerShaped(r.prod, |r.states|)
    && PacerShaped(r.pacer, |r.states|)
    && (r.pacer.Transmit? ==> |r.pacer.read| <= r.pacer.len <= MAX_PACKET)
  }

  predicate FullBuffers(bufs: seq<seq<u8>>) { forall i :: 0 <= i < |bufs| ==> |bufs[i]| == MAX_PACKET }

  predicate ProducerShaped(p: Producer, n: nat) {
    match p
    case Idle => true
    case Reclaim(slot) => slot < n
    case Fill(slot, job, k) => slot < n && job.Fits() && k <= 2 * |job.wire|
    case _ => p.slot < n && p.job.Fits()
  }

  predicate PacerShaped(p: Pacer, n: nat) {
    p.Top? || p.Receive? || p.Stopped? || p.slot < n
  }

  // ---------- actions ----------

  /** One byte of staging: the encoded bytes in order, then the transformed ones over them. */
  function FillByte(buf: seq<u8>, job: Job, k: nat): (r: seq<u8>)
    requires job.Fits() && k < 2 * |job.wire| && |buf| == MAX_PACKET
    ensures |r| == MAX_PACKET
  {
    var n := |job.wire|;
    if k < n then buf[k := job.raw[k]] else buf[k - n := job.wire[k - n]]
  }

  ghost function StepProduce(r: Ring): Ring
    requires Shaped(r)
  {
    match r.prod
    case Idle => r
    case Claim(slot, job) =>
      if r.states[slot].FREE?
      then r.(states := r.states[slot := WRITING], prod := Fill(slot, job, 0))
      else r.(prod := Idle)
    case Fill(slot, job, k) =>
      if k < 2 * |job.wire|
      then r.(bufs := r.bufs[slot := FillByte(r.bufs[slot], job, k)], prod := Fill(slot, job, k + 1))
      else r.(prod := StoreLen(slot, job))
    case StoreLen(slot, job) => r.(lens := r.lens[slot := |job.wire|], prod := Publish(slot, job))
    case Publish(slot, job) => r.(states := r.states[slot := READY], prod := Enqueue(slot, job))
    case Enqueue(slot, job) =>
      if !r.pacer.Stopped? && |r.chan| < |r.states|
      then r.(chan := r.chan + [slot], accepted := r.accepted + [job.wire], prod := Idle)
      else r.(prod := Reclaim(slot))
    case Reclaim(slot) => r.(states := r.states[slot := FREE], prod := Idle)
  }

  ghost function StepPace(r: Ring, timeout: bool, again: bool): Ring
    requires Shaped(r)
  {
    match r.pacer
    case Stopped => r
    case Top => r.(pacer := if r.stop then Stopped else Receive)
    case Receive =>
      if timeout || r.chan == [] then r.(pacer := Top)
      else r.(pacer := Take(r.chan[0]), chan := r.chan[1..])
    case Take(slot) =>
      if r.states[slot].READY?
      then r.(states := r.states[slot := SENDING], pacer := LoadLen(slot))
      else r.(pacer := Top)
    case LoadLen(slot) => r.(pacer := Transmit(slot, r.lens[slot], []))
    case Transmit(slot, len, read) =>
      if |read| < len then r.(pacer := Transmit(slot, len, read + [r.bufs[slot][|read|]]))
      else if again then r.(pacer := Transmit(slot, len, []))
      else r.(handed := r.handed + [read], pacer := Release(slot))
    case Release(slot) => r.(states := r.states[slot := FREE], pacer := Top)
  }

  ghost function Step(r: Ring, a: Action): Ring
    requires Shaped(r)
  {
    match a
    case Stage(job) =>
      if r.prod.Idle? && job.Fits()
      then r.(prod := Claim(r.head, job), head := (r.head + 1) % |r.states|)
      else r
    case Produce => StepProduce(r)
    case Pace(timeout, again) => StepPace(r, timeout, again)
    case Stop => r.(stop := true)
  }

  // ---------- what every interleaving keeps ----------

  predicate ProducerHolds(p: Producer, slot: nat) {
    !p.Idle? && !p.Claim? && p.slot == slot
  }

  predicate PacerHolds(p: Pacer, slot: nat) {
    !p.Top? && !p.Receive? && !p.Stopped? && p.slot == slot
  }

  /** The state a slot must be in, given who holds it. */
  function StateOf(r: Ring, slot: nat): SlotState {
    if ProducerHolds(r.prod, slot) then (if r.prod.Enqueue? || r.prod.Reclaim? then READY else WRITING)
    else if PacerHolds(r.pacer, slot) then (if r.pacer.Take? then READY else SENDING)
    else if slot in r.chan then READY
    else FREE
  }

  /** Each slot has at most one holder: the producer, the pacer, or one channel entry. */
  ghost predicate Exclusive(r: Ring) {
    && (forall slot :: ProducerHolds(r.prod, slot) ==> !PacerHolds(r.pacer, slot) && slot !in r.chan)
    && (forall slot :: PacerHolds(r.pacer, slot) ==> slot !in r.chan)
    && (forall i, j :: 0 <= i < j < |r.chan| ==> r.chan[i] != r.chan[j])
  }

  ghost predicate Ownership(r: Ring) {
    Exclusive(r) && forall slot :: 0 <= slot < |r.states| ==> r.states[slot] == StateOf(r, slot)
  }

  /** The packet a slot holds. */
  ghost function PacketIn(r: Ring, slot: nat): seq<u8>
    requires Shaped(r) && slot < |r.states|
  {
    r.bufs[slot][..r.lens[slot]]
  }

  /** What the producer has written so far. */
  ghost predicate Staged(r: Ring)
    requires Shaped(r)
  {
    match r.prod
    case Fill(slot, job, k) => k > |job.wire| ==> r.bufs[slot][..k - |job.wire|] == job.wire[..k - |job.wire|]
    case StoreLen(slot, job) => r.bufs[slot][..|job.wire|] == job.wire
    case Publish(slot, job) => r.lens[slot] == |job.wire| && r.bufs[slot][..|job.wire|] == job.wire
    case Enqueue(slot, job) => r.lens[slot] == |job.wire| && r.bufs[slot][..|job.wire|] == job.wire
    case _ => true
  }

  /** What the pacer has read so far. */
  ghost predicate ReadFaithfully(r: Ring)
    requires Shaped(r)
  {
    r.pacer.Transmit? ==>
      && r.pacer.len == r.lens[r.pacer.slot]
      && r.pacer.read == r.bufs[r.pacer.slot][..|r.pacer.read|]
  }

  /** Packets accepted but not yet handed over: the pacer's, then the channel's in order. */
  ghost function InTransit(r: Ring): seq<seq<u8>>
    requires Shaped(r)
  {
    (if r.pacer.Take? || r.pacer.LoadLen? || r.pacer.Transmit? then [PacketIn(r, r.pacer.slot)] else [])
    + seq(|r.chan|, i requires 0 <= i < |r.chan| => PacketIn(r, r.chan[i]))
  }

  ghost predicate Inv(r: Ring) {
    && Shaped(r) && Ownership(r) && Staged(r) && ReadFaithfully(r)
    && r.accepted == r.handed + InTransit(r)
  }

  lemma ProduceKeepsShape(r: Ring)
    requires Shaped(r)
    ensures Shaped(StepProduce(r))
  {
    hide StepProduce;
    if r.prod.Fill? {
      FillKeepsShape(r);
    } else if r.prod.StoreLen? || r.prod.Enqueue? {
      HandInKeepsShape(r);
    } else {
      ClaimKeepsShape(r);
    }
  }

  lemma FillKeepsShape(r: Ring)
    requires Shaped(r) && r.prod.Fill?
    ensures Shaped(StepProduce(r))
  {
    hide FillByte;
  }

  lemma HandInKeepsShape(r: Ring)
    requires Shaped(r) && (r.prod.StoreLen? || r.prod.Enqueue?)
    ensures Shaped(StepProduce(r))
  {
    hide FillByte, FullBuffers;
  }

  lemma ClaimKeepsShape(r: Ring)
    requires Shaped(r) && !r.prod.Fill? && !r.prod.StoreLen? && !r.prod.Enqueue?
    ensures Shaped(StepProduce(r))
  {
    hide FillByte, FullBuffers;
  }

  lemma PaceKeepsShape(r: Ring, timeout: bool, again: bool)
    requires Shaped(r)
    ensures Shaped(StepPace(r, timeout, again))
  {}

  lemma ProduceKeepsOwnership(r: Ring)
    requires Shaped(r) && Ownership(r)
    ensures Ownership(StepProduce(r))
  {
    hide FillByte, Job.Fits;
    var q := StepProduce(r);
    if q.chan != r.chan {
      EnqueueKeepsOwnership(r, q);
    } else {
      forall slot | 0 <= slot < |r.states| ensures q.states[slot] == StateOf(q, slot) {
        assert r.states[slot] == StateOf(r, slot);
      }
    }
  }

  lemma EnqueueKeepsOwnership(r: Ring, q: Ring)
    requires Shaped(r) && Ownership(r) && r.prod.Enqueue?
    requires q.states == r.states && q.chan == r.chan + [r.prod.slot] && q.pacer == r.pacer && q.prod == Idle
    ensures Ownership(q)
  {
    assert ProducerHolds(r.prod, r.prod.slot);
    assert forall slot :: slot in q.chan <==> slot in r.chan || slot == r.prod.slot;
    forall slot | 0 <= slot < |r.states| ensures q.states[slot] == StateOf(q, slot) {
      assert r.states[slot] == StateOf(r, slot);
    }
  }

  lemma PaceKeepsOwnership(r: Ring, timeout: bool, again: bool)
    requires Shaped(r) && Ownership(r)
    ensures Ownership(StepPace(r, timeout, again))
  {
    var q := StepPace(r, timeout, again);
    if q.chan != r.chan {
      ReceiveKeepsOwnership(r, q);
    } else if q.states != r.states {
      HolderKeepsOwnership(r, q);
    } else {
      forall slot | 0 <= slot < |r.states| ensures q.states[slot] == StateOf(q, slot) {
        assert r.states[slot] == StateOf(r, slot);
      }
    }
  }

  /** The pacer takes its slot into sending, or gives it back. */
  lemma HolderKeepsOwnership(r: Ring, q: Ring)
    requires Shaped(r) && Ownership(r) && q.prod == r.prod && q.chan == r.chan && (r.pacer.Take? || r.pacer.Release?)
    requires q.pacer == (if r.pacer.Take? then LoadLen(r.pacer.slot) else Top)
    requires q.states == r.states[r.pacer.slot := if r.pacer.Take? then SENDING else FREE]
    ensures Ownership(q)
  {
    assert PacerHolds(r.pacer, r.pacer.slot);
    forall slot | 0 <= slot < |r.states| ensures q.states[slot] == StateOf(q, slot) {
      assert r.states[slot] == StateOf(r, slot);
    }
  }

  lemma ReceiveKeepsOwnership(r: Ring, q: Ring)
    requires Shaped(r) && Ownership(r) && r.pacer.Receive? && r.chan != []
    requires q == r.(pacer := Take(r.chan[0]), chan := r.chan[1..])
    ensures Ownership(q)
  {
    assert forall slot :: slot in r.chan <==> slot == r.chan[0] || slot in q.chan;
    assert r.chan[0] !in q.chan;
    forall slot | 0 <= slot < |r.states| ensures q.states[slot] == StateOf(q, slot) {
      assert r.states[slot] == StateOf(r, slot);
    }
  }

  /** Slots nobody has touched keep their packets, so the packets in transit stay the same. */
  lemma SameTransit(r: Ring, q: Ring)
    requires Shaped(r) && Shaped(q) && |q.states| == |r.states| && q.pacer == r.pacer && q.chan == r.chan
    requires forall slot :: 0 <= slot < |r.states| && (PacerHolds(r.pacer, slot) || slot in r.chan) ==>
               q.bufs[slot] == r.bufs[slot] && q.lens[slot] == r.lens[slot]
    ensures InTransit(q) == InTransit(r)
  {
    forall i | 0 <= i < |r.chan| ensures PacketIn(q, r.chan[i]) == PacketIn(r, r.chan[i]) {
      assert r.chan[i] in r.chan;
      SamePacket(r, q, r.chan[i]);
    }
    if r.pacer.Take? || r.pacer.LoadLen? || r.pacer.Transmit? {
      SamePacket(r, q, r.pacer.slot);
    }
  }

  lemma SamePacket(r: Ring, q: Ring, slot: nat)
    requires Shaped(r) && Shaped(q) && |q.states| == |r.states|
    requires PacerHolds(r.pacer, slot) || slot in r.chan
    requires slot < |r.states| ==> q.bufs[slot] == r.bufs[slot] && q.lens[slot] == r.lens[slot]
    ensures slot < |r.states| && PacketIn(q, slot) == PacketIn(r, slot)
  {}

  lemma FillKeepsStaged(buf: seq<u8>, job: Job, k: nat)
    requires job.Fits() && k < 2 * |job.wire| && |buf| == MAX_PACKET
    requires k > |job.wire| ==> buf[..k - |job.wire|] == job.wire[..k - |job.wire|]
    ensures k + 1 > |job.wire| ==> FillByte(buf, job, k)[..k + 1 - |job.wire|] == job.wire[..k + 1 - |job.wire|]
  {
    var n := |job.wire|;
    if k >= n {
      var next := FillByte(buf, job, k);
      assert next[..k + 1 - n] == next[..k - n] + [job.wire[k - n]];
      assert next[..k - n] == buf[..k - n] == job.wire[..k - n];
    }
  }

  lemma ProduceKeepsStaged(r: Ring)
    requires Shaped(r) && Staged(r)
    ensures Shaped(StepProduce(r)) && Staged(StepProduce(r))
  {
    ProduceKeepsShape(r);
    if r.prod.Fill? {
      if r.prod.k < 2 * |r.prod.job.wire| {
        FillKeepsStaged(r.bufs[r.prod.slot], r.prod.job, r.prod.k);
      } else {
        assert r.prod.job.wire[..|r.prod.job.wire|] == r.prod.job.wire;
      }
    }
  }

  lemma EnqueueTransit(r: Ring, q: Ring)
    requires Inv(r) && r.prod.Enqueue? && Shaped(q)
    requires q == r.(chan := r.chan + [r.prod.slot], accepted := r.accepted + [r.prod.job.wire], prod := Idle)
    ensures q.accepted == q.handed + InTransit(q)
  {
    hide Ownership, Staged;
    var packet := PacketIn(q, r.prod.slot);
    assert packet == r.prod.job.wire by { EnqueuedPacket(r); }
    assert InTransit(q) == InTransit(r) + [packet];
    assert r.handed + (InTransit(r) + [packet]) == (r.handed + InTransit(r)) + [packet];
  }

  lemma EnqueuedPacket(r: Ring)
    requires Shaped(r) && Staged(r) && r.prod.Enqueue?
    ensures PacketIn(r, r.prod.slot) == r.prod.job.wire
  {}

  lemma ProduceKeepsTransit(r: Ring)
    requires Inv(r) && Shaped(StepProduce(r))
    ensures ReadFaithfully(StepProduce(r))
    ensures StepProduce(r).accepted == StepProduce(r).handed + InTransit(StepProduce(r))
  {
    hide InTransit, Staged;
    var q := StepProduce(r);
    if q.chan == r.chan {
      SameTransit(r, q);
    } else {
      EnqueueTransit(r, q);
    }
  }

  lemma ReceiveTransit(r: Ring, q: Ring)
    requires Shaped(r) && Shaped(q) && r.pacer.Receive? && r.chan != []
    requires q == r.(pacer := Take(r.chan[0]), chan := r.chan[1..])
    ensures InTransit(q) == InTransit(r)
  {
    var packets := seq(|r.chan|, i requires 0 <= i < |r.chan| => PacketIn(r, r.chan[i]));
    assert InTransit(r) == packets;
    assert forall i :: 0 <= i < |q.chan| ==> q.chan[i] == r.chan[i + 1];
    assert forall i :: 0 <= i < |r.states| ==> PacketIn(q, i) == PacketIn(r, i);
    hide PacketIn;
    assert packets == [PacketIn(r, r.chan[0])] + packets[1..];
  }

  lemma HandOverTransit(r: Ring, q: Ring)
    requires Shaped(r) && Shaped(q) && ReadFaithfully(r) && r.pacer.Transmit? && |r.pacer.read| == r.pacer.len
    requires q == r.(handed := r.handed + [r.pacer.read], pacer := Release(r.pacer.slot))
    ensures r.handed + InTransit(r) == q.handed + InTransit(q)
  {
    assert r.pacer.read == PacketIn(r, r.pacer.slot);
    assert InTransit(r) == [r.pacer.read] + InTransit(q);
    assert r.handed + ([r.pacer.read] + InTransit(q)) == (r.handed + [r.pacer.read]) + InTransit(q);
  }

  lemma StillTransit(r: Ring, q: Ring)
    requires Shaped(r) && Shaped(q) && q.bufs == r.bufs && q.lens == r.lens && q.chan == r.chan
    requires (r.pacer.Take? || r.pacer.LoadLen? || r.pacer.Transmit?) ==
             (q.pacer.Take? || q.pacer.LoadLen? || q.pacer.Transmit?)
    requires r.pacer.Take? || r.pacer.LoadLen? || r.pacer.Transmit? ==> q.pacer.slot == r.pacer.slot
    ensures InTransit(q) == InTransit(r)
  {
    hide Shaped;
  }

  lemma PaceKeepsTransit(r: Ring, timeout: bool, again: bool)
    requires Inv(r) && Shaped(StepPace(r, timeout, again))
    ensures StepPace(r, timeout, again).accepted == StepPace(r, timeout, again).handed + InTransit(StepPace(r, timeout, again))
  {
    TakeSucceeds(r);
    hide InTransit, Staged, Ownership;
    var q := StepPace(r, timeout, again);
    if q.chan != r.chan {
      ReceiveTransit(r, q);
    } else if q.handed != r.handed {
      HandOverTransit(r, q);
    } else {
      StillTransit(r, q);
    }
  }

  lemma PaceKeepsReading(r: Ring, timeout: bool, again: bool)
    requires Shaped(r) && Staged(r) && ReadFaithfully(r) && Shaped(StepPace(r, timeout, again))
    ensures Staged(StepPace(r, timeout, again)) && ReadFaithfully(StepPace(r, timeout, again))
  {}

  // ---------- the main results ----------

  lemma StepKeeps(r: Ring, a: Action)
    requires Inv(r)
    ensures Inv(Step(r, a))
  {
    hide Ownership, Staged, ReadFaithfully, InTransit, StepProduce, StepPace;
    match a
    case Stage(job) => StageKeeps(r, job);
    case Produce =>
      ProduceKeepsStaged(r);
      ProduceKeepsOwnership(r);
      ProduceKeepsTransit(r);
    case Pace(timeout, again) =>
      PaceKeepsShape(r, timeout, again);
      PaceKeepsOwnership(r, timeout, again);
      PaceKeepsReading(r, timeout, again);
      PaceKeepsTransit(r, timeout, again);
    case Stop =>
      StopKeeps(r);
  }

  lemma StageKeeps(r: Ring, job: Job)
    requires Inv(r)
    ensures Inv(Step(r, Stage(job)))
  {
    var q := Step(r, Stage(job));
    assert InTransit(q) == InTransit(r);
    forall slot | 0 <= slot < |r.states| ensures q.states[slot] == StateOf(q, slot) {
      assert r.states[slot] == StateOf(r, slot);
    }
  }

  lemma StopKeeps(r: Ring)
    requires Inv(r)
    ensures Inv(r.(stop := true))
  {
    var q := r.(stop := true);
    assert InTransit(q) == InTransit(r);
    forall slot | 0 <= slot < |r.states| ensures q.states[slot] == StateOf(q, slot) {
      assert r.states[slot] == StateOf(r, slot);
    }
  }

  ghost function Run(r: Ring, actions: seq<Action>): (q: Ring)
    requires Inv(r)
    ensures Inv(q)
    decreases |actions|
  {
    if actions == [] then r
    else
      StepKeeps(r, actions[0]);
      Run(Step(r, actions[0]), actions[1..])
  }

  /** A freshly created ring. */
  ghost predicate Init(r: Ring) {
    && Shaped(r) && r.chan == [] && r.prod.Idle? && r.pacer.Top? && r.accepted == r.handed == []
    && forall slot :: 0 <= slot < |r.states| ==> r.states[slot].FREE?
  }

  lemma InitHolds(r: Ring)
    requires Init(r)
    ensures Inv(r)
  {
    assert InTransit(r) == [];
  }

  /** The pacer's claim of a received slot never fails. */
  lemma TakeSucceeds(r: Ring)
    requires Inv(r)
    ensures r.pacer.Take? ==> r.states[r.pacer.slot].READY?
  {
    if r.pacer.Take? { assert PacerHolds(r.pacer, r.pacer.slot); }
  }

  /** No slot is queued twice, so the channel has room whenever the producer offers a slot. */
  lemma ChannelHasRoom(r: Ring)
    requires Inv(r) && r.prod.Enqueue?
    ensures |r.chan| < |r.states|
  {
    var slot := r.prod.slot;
    assert ProducerHolds(r.prod, slot);
    DistinctCard(r.chan);
    var others := UpTo(|r.states|) - {slot};
    assert Members(r.chan) <= others;
    SubsetCard(Members(r.chan), others);
  }

  lemma SubsetCard(a: set<nat>, b: set<nat>)
    requires a <= b
    ensures |a| <= |b|
  {
    MinusCard(b, a);
  }

  /** For every interleaving from a fresh ring: the producer never writes a slot the pacer is
      reading; the claim of a received slot succeeds; an offered slot always finds room while
      the pacer runs; and the packets handed to the socket are the accepted ones, byte for byte
      as staged, in acceptance order, each once, none skipped. */
  lemma RingIsSafe(r: Ring, actions: seq<Action>)
    requires Init(r)
    ensures Inv(r)
    ensures var q := Run(r, actions);
      && (forall slot :: !(ProducerHolds(q.prod, slot) && PacerHolds(q.pacer, slot)))
      && (q.pacer.Take? ==> q.states[q.pacer.slot].READY?)
      && (q.prod.Enqueue? ==> |q.chan| < |q.states|)
      && q.handed <= q.accepted
      && |q.accepted| <= |q.handed| + 1 + |q.chan|
      && (q.chan == [] && (q.pacer.Top? || q.pacer.Receive? || q.pacer.Stopped? || q.pacer.Release?) ==> q.handed == q.accepted)
  {
    InitHolds(r);
    var q := Run(r, actions);
    TakeSucceeds(q);
    if q.prod.Enqueue? { ChannelHasRoom(q); }
    assert q.accepted[..|q.handed|] == q.handed;
  }
}
