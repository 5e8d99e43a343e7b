/** Live reconfiguration of a classifier: one master thread, one worker thread, one NIC.

The master builds a configuration on the update side, publishes it with
`upd_index = ref_index`, waits until the worker has moved `ref_index` away, and
wipes the side the worker left. The worker classifies packets on the reference
side, buffering them per TX port. Every event below is one indivisible action of
one thread, and a run is any interleaving of events.
 */
module ClassifierProtocol {
  import opened ClassifierTable
  import opened Sequences

  const MAX_PKT_BURST := 32

  datatype Packet = Packet(id: nat, h: Header)

  /** One side of the classifier, apart from the packets buffered on it. */
  datatype Side = Side(rxUndef: bool, entry: bool, tables: Tables, nofTx: nat)

  const WIPED := Side(false, false, map[], 0)

  /** Packets on their way out. `bufs[d][i]` is the TX buffer of port `i` of side `d`, `refs`
      gives the reference count of each mbuf and `nic` the references the driver holds.
      `fault` records an mbuf freed without a reference, a TX buffer overrun or a push to a
      port that is not there. */
  datatype Packets = Packets(bufs: seq<seq<seq<Packet>>>, refs: multiset<Packet>,
                             nic: multiset<Packet>, fault: bool)

  /** Where the master is in `update_classifier`. */
  datatype Master =
    | Idle
    | Building(ports: seq<TxPort>, i: nat)
    | Waiting(ports: seq<TxPort>)
    | Wiping(ports: seq<TxPort>)

  /** Where the worker is in `classify_packets`, and which side it holds a pointer to. */
  datatype Worker =
    | Top
    | Flush(i: nat)
    | Fetch
    | Drain(side: nat, i: nat)
    | Receive(side: nat)
    | Classify(side: nat, rx: seq<Packet>)
    | Fan(side: nat, p: Packet, dests: seq<int>, rx: seq<Packet>)

  /** `cfg` is the configuration the worker is to follow and `dirty` says that an update was
      given up since the last wipe. Of the run so far, `stale` says that a dirty side was
      published, `astray` that a side was published whose tables name a port it does not have,
      and `rejected` that the VLAN operation of a TX port rejected a packet. */
  datatype State = State(
    sides: seq<Side>, ref: nat, upd: nat, m: Master, w: Worker, x: Packets,
    cfg: seq<TxPort>, dirty: bool, stale: bool, astray: bool, rejected: bool)

  datatype Event =
    | MBegin(ports: seq<TxPort>, rxUndef: bool)
    | MPort
    | MFail(created: bool)
    | MPublish
    | MDone
    | MWipe
    | WCheck
    | WFlush(ok: nat, sent: nat)
    | WFlip
    | WFetch(drain: bool)
    | WDrain(ok: nat, sent: nat)
    | WReceive(burst: seq<Packet>)
    | WClassify
    | WPush(ok: nat, sent: nat)
    | NicRelease(p: Packet)

  /* ----- Effects of the sequential code ----- */

  /** `rte_pktmbuf_free` on each mbuf of a sequence. */
  function Free(x: Packets, pkts: seq<Packet>): Packets {
    x.(refs := x.refs - multiset(pkts), fault := x.fault || !(multiset(pkts) <= x.refs))
  }

  /** `y` differs from `x` at most in the contents of the buffers of side `d`. */
  predicate SameOffSide(x: Packets, y: Packets, d: nat)
    requires d < |x.bufs|
  {
    && |y.bufs| == |x.bufs| && |y.bufs[d]| == |x.bufs[d]|
    && forall k :: 0 <= k < |x.bufs| && k != d ==> y.bufs[k] == x.bufs[k]
  }

  function SetBuf(x: Packets, d: nat, i: nat, b: seq<Packet>): (y: Packets)
    requires d < |x.bufs| && i < |x.bufs[d]|
    ensures SameOffSide(x, y, d)
  {
    x.(bufs := x.bufs[d := x.bufs[d][i := b]])
  }

  /** `transmit_packets` on one port: the driver takes the first `sent` packets, the rest are freed. */
  function Transmit(x: Packets, d: nat, i: nat, sent: nat): (y: Packets)
    requires d < |x.bufs| && i < |x.bufs[d]| && sent <= |x.bufs[d][i]|
    ensures SameOffSide(x, y, d)
  {
    var b := x.bufs[d][i];
    Free(SetBuf(x, d, i, []).(nic := x.nic + multiset(b[..sent])), b[sent..])
  }

  /** `transmit_packets` through `sppwk_eth_vlan_tx_burst`: the VLAN operation of the port
      processes the first `ok` packets and frees the others itself before the burst. */
  function TransmitTagged(x: Packets, d: nat, i: nat, ok: nat, sent: nat): (y: Packets)
    requires d < |x.bufs| && i < |x.bufs[d]| && sent <= ok <= |x.bufs[d][i]|
    ensures SameOffSide(x, y, d)
  {
    Transmit(Free(x, x.bufs[d][i][ok..]), d, i, sent)
  }

  /** `push_packet`: a full buffer is transmitted at once. */
  function PushTagged(x: Packets, d: nat, i: int, p: Packet, ok: nat, sent: nat): (y: Packets)
    requires d < |x.bufs| && sent <= ok <= MAX_PKT_BURST
    ensures SameOffSide(x, y, d)
  {
    if !(0 <= i < |x.bufs[d]| && |x.bufs[d][i]| < MAX_PKT_BURST) then x.(fault := true)
    else
      var x1 := SetBuf(x, d, i, x.bufs[d][i] + [p]);
      if |x.bufs[d][i]| + 1 == MAX_PKT_BURST then TransmitTagged(x1, d, i, ok, sent) else x1
  }

  function Copies(p: Packet, n: nat): multiset<Packet> {
    multiset{}[p := n]
  }

  /** Where the worker goes on after pushing a packet to the first of its destinations. */
  function AfterPush(side: nat, p: Packet, dests: seq<int>, rx: seq<Packet>): Worker
    requires dests != []
  {
    if |dests| == 1 then Classify(side, rx) else Fan(side, p, dests[1..], rx)
  }

  /** One packet of a burst: dropped, or given a reference for each of its destinations. */
  function ClassifyPacket(x: Packets, side: nat, t: Tables, p: Packet, rx: seq<Packet>): (Worker, Packets) {
    var dests := Destinations(t, p.h);
    if dests == [] then (Classify(side, rx), Free(x, [p]))
    else (Fan(side, p, dests, rx), x.(refs := x.refs + Copies(p, |dests| - 1)))
  }

  /** Side `d` after the master stored port `i`; `ok` tells whether the MAC entry could be added. */
  function StorePort(side: Side, ports: seq<TxPort>, i: nat, ok: bool): Side
    requires i < |ports|
  {
    var p := ports[i];
    var t := if ok then Register(side.tables, p, i) else LeftOver(side.tables, p, i);
    side.(entry := side.entry || p.mac != 0, tables := t)
  }

  predicate Ready(side: Side) {
    !side.rxUndef && side.nofTx >= 1 && side.entry
  }

  /* ----- Events ----- */

  predicate HasSide(w: Worker) {
    w.Drain? || w.Receive? || w.Classify? || w.Fan?
  }

  predicate WellFormed(s: State) {
    && |s.sides| == |s.x.bufs| == 2 && s.ref < 2 && s.upd < 2
    && |s.x.bufs[0]| == s.sides[0].nofTx && |s.x.bufs[1]| == s.sides[1].nofTx
    && (HasSide(s.w) ==> s.w.side < 2)
  }

  predicate Enabled(s: State, e: Event) {
    && WellFormed(s)
    && match e
       case MBegin(_, _) => s.m.Idle?
       case MPort => s.m.Building? && s.m.i < |s.m.ports|
       case MFail(created) =>
         && s.m.Building? && s.m.i < |s.m.ports| && s.m.ports[s.m.i].mac != 0
         && (if created then s.m.ports[s.m.i].mac != CLS_DUMMY_ADDR
             else s.m.ports[s.m.i].vid !in s.sides[s.upd].tables)
       case MPublish => s.m.Building? && s.m.i == |s.m.ports|
       case MDone => s.m.Waiting? && s.ref != s.upd
       case MWipe => s.m.Wiping?
       case WCheck => s.w.Top?
       case WFlush(ok, sent) =>
         s.w.Flush? && s.w.i < s.sides[s.ref].nofTx && sent <= ok <= |s.x.bufs[s.ref][s.w.i]|
       case WFlip => s.w.Flush? && s.w.i >= s.sides[s.ref].nofTx
       case WFetch(_) => s.w.Fetch?
       case WDrain(ok, sent) =>
         s.w.Drain? && s.w.i < s.sides[s.w.side].nofTx && sent <= ok <= |s.x.bufs[s.w.side][s.w.i]|
       case WReceive(burst) =>
         && (s.w.Receive? || (s.w.Drain? && s.w.i >= s.sides[s.w.side].nofTx))
         && |burst| <= MAX_PKT_BURST && Distinct(burst) && forall p :: p in burst ==> p !in s.x.refs
       case WClassify => s.w.Classify?
       case WPush(ok, sent) => s.w.Fan? && s.w.dests != [] && sent <= ok <= MAX_PKT_BURST
       case NicRelease(p) => p in s.x.nic
  }

  /** Worker and driver events that only move packets. */
  predicate MovesPackets(e: Event) {
    e.WFlush? || e.WDrain? || e.WReceive? || e.WClassify? || e.WPush? || e.NicRelease?
  }

  /** The VLAN operation of a TX port rejects a packet in this event. */
  predicate Rejects(s: State, e: Event)
    requires Enabled(s, e)
  {
    match e
    case WFlush(ok, _) => ok < |s.x.bufs[s.ref][s.w.i]|
    case WDrain(ok, _) => ok < |s.x.bufs[s.w.side][s.w.i]|
    case WPush(ok, _) =>
      var i := s.w.dests[0];
      0 <= i < |s.x.bufs[s.w.side]| && |s.x.bufs[s.w.side][i]| + 1 == MAX_PKT_BURST && ok < MAX_PKT_BURST
    case _ => false
  }

  function Move(s: State, e: Event): (r: (Worker, Packets))
    requires Enabled(s, e) && MovesPackets(e)
  {
    match e
    case WFlush(ok, sent) => (Flush(s.w.i + 1), TransmitTagged(s.x, s.ref, s.w.i, ok, sent))
    case WDrain(ok, sent) => (Drain(s.w.side, s.w.i + 1), TransmitTagged(s.x, s.w.side, s.w.i, ok, sent))
    case WReceive(burst) =>
      (Classify(s.w.side, burst), s.x.(refs := s.x.refs + multiset(burst)))
    case WClassify =>
      if s.w.rx == [] then (Top, s.x)
      else ClassifyPacket(s.x, s.w.side, s.sides[s.w.side].tables, s.w.rx[0], s.w.rx[1..])
    case WPush(ok, sent) =>
      (AfterPush(s.w.side, s.w.p, s.w.dests, s.w.rx),
       PushTagged(s.x, s.w.side, s.w.dests[0], s.w.p, ok, sent))
    case NicRelease(p) => (s.w, Free(s.x.(nic := s.x.nic - multiset{p}), [p]))
  }

  function Apply(s: State, e: Event): State
    requires Enabled(s, e)
  {
    if MovesPackets(e) then var (w, x) := Move(s, e); s.(w := w, x := x, rejected := s.rejected || Rejects(s, e))
    else match e
    case MBegin(ports, rxUndef) =>
      s.(m := Building(ports, 0),
         sides := s.sides[s.upd := Side(rxUndef, false, s.sides[s.upd].tables, |ports|)],
         x := s.x.(bufs := s.x.bufs[s.upd := seq(|ports|, _ => [])]))
    case MPort =>
      s.(m := Building(s.m.ports, s.m.i + 1),
         sides := s.sides[s.upd := StorePort(s.sides[s.upd], s.m.ports, s.m.i, true)])
    case MFail(created) =>
      s.(m := Idle, dirty := true,
         sides := if created
                  then s.sides[s.upd := StorePort(s.sides[s.upd], s.m.ports, s.m.i, false)]
                  else s.sides)
    case MPublish =>
      s.(m := Waiting(s.m.ports), upd := s.ref, stale := s.stale || s.dirty,
         astray := s.astray || !Within(s.sides[s.upd].tables, s.sides[s.upd].nofTx))
    case MDone => s.(m := Wiping(s.m.ports))
    case MWipe =>
      s.(m := Idle, dirty := false,
         sides := s.sides[s.upd := WIPED], x := s.x.(bufs := s.x.bufs[s.upd := []]))
    case WCheck => s.(w := if s.ref == s.upd then Flush(0) else Fetch)
    case WFlip =>
      s.(w := Fetch, ref := (s.upd + 1) % 2, cfg := if s.m.Waiting? then s.m.ports else s.cfg)
    case WFetch(drain) =>
      s.(w := if !Ready(s.sides[s.ref]) then Top
              else if drain then Drain(s.ref, 0) else Receive(s.ref))
  }

  /* ----- Runs ----- */

  predicate IsRun(s: State, run: seq<Event>)
    decreases |run|
  {
    run == [] || (Enabled(s, run[0]) && IsRun(Apply(s, run[0]), run[1..]))
  }

  function End(s: State, run: seq<Event>): State
    requires IsRun(s, run)
    decreases |run|
  {
    if run == [] then s else End(Apply(s, run[0]), run[1..])
  }

  /** The state from which an update is safe: the worker has made its first pass. */
  predicate Init(s: State) {
    && s.sides == [WIPED, WIPED] && s.ref < 2 && s.upd < 2 && s.ref != s.upd
    && s.m.Idle? && s.w.Top? && s.x == Packets([[], []], multiset{}, multiset{}, false)
    && s.cfg == [] && !s.dirty && !s.stale && !s.astray && !s.rejected
  }

  /* ----- Invariants ----- */

  /** The side the worker's current code may touch. */
  function WorkerSide(s: State): set<nat> {
    if s.w.Flush? then {s.ref} else if HasSide(s.w) then {s.w.side} else {}
  }

  /** The side the master's current code may touch. */
  function MasterSide(s: State): set<nat> {
    if s.m.Building? || s.m.Wiping? then {s.upd} else {}
  }

  predicate ProtocolInv(s: State) {
    && WellFormed(s)
    && (s.ref == s.upd ==> s.m.Waiting?)
    && (s.w.Flush? ==> s.ref == s.upd)
    && (HasSide(s.w) ==> s.w.side == s.ref)
    && (s.m.Building? ==> s.m.i <= |s.m.ports| == s.sides[s.upd].nofTx)
    && (s.m.Idle? ==> (s.sides[s.upd] == WIPED <==> !s.dirty))
    && (s.w.Fan? ==> s.w.dests != [])
  }

  predicate ByMaster(e: Event) {
    e.MBegin? || e.MPort? || e.MFail? || e.MPublish? || e.MDone? || e.MWipe?
  }

  lemma ProtocolMaster(s: State, e: Event)
    requires ProtocolInv(s) && Enabled(s, e) && ByMaster(e)
    ensures ProtocolInv(Apply(s, e))
  {
  }

  lemma MoveFrame(s: State, e: Event)
    requires ProtocolInv(s) && Enabled(s, e) && MovesPackets(e)
    ensures var (w, x) := Move(s, e);
            && SameOffSide(s.x, x, s.ref) && (w.Flush? ==> s.w.Flush?)
            && (HasSide(w) ==> HasSide(s.w) && w.side == s.w.side) && (w.Fan? ==> w.dests != [])
  {
    hide PushTagged, TransmitTagged, Destinations, Copies;
  }

  lemma ProtocolWorker(s: State, e: Event)
    requires ProtocolInv(s) && Enabled(s, e) && !ByMaster(e)
    ensures ProtocolInv(Apply(s, e))
  {
    hide Move;
    if MovesPackets(e) {
      MoveFrame(s, e);
    }
  }

  /* ----- References ----- */

  /** How often an mbuf occurs in the TX buffers of a side. */
  ghost function Held(bufs: seq<seq<Packet>>, p: Packet): nat {
    if bufs == [] then 0 else multiset(bufs[0])[p] + Held(bufs[1..], p)
  }

  lemma {:induction false} HeldSet(bufs: seq<seq<Packet>>, i: nat, b: seq<Packet>, p: Packet)
    requires i < |bufs|
    ensures Held(bufs[i := b], p) + multiset(bufs[i])[p] == Held(bufs, p) + multiset(b)[p]
  {
    if i == 0 {
      assert bufs[0 := b][1..] == bufs[1..];
    } else {
      assert bufs[i := b][1..] == bufs[1..][i-1 := b];
      HeldSet(bufs[1..], i-1, b, p);
    }
  }

  lemma {:induction false} HeldEmpty(bufs: seq<seq<Packet>>, p: Packet)
    requires forall i :: 0 <= i < |bufs| ==> bufs[i] == []
    ensures Held(bufs, p) == 0
  {
    if bufs != [] {
      HeldEmpty(bufs[1..], p);
    }
  }

  /** References to an mbuf from TX buffers and from the driver. */
  ghost function Owned(x: Packets, p: Packet): nat
    requires |x.bufs| == 2
  {
    Held(x.bufs[0], p) + Held(x.bufs[1], p) + x.nic[p]
  }

  /** Each reference is accounted for: in a TX buffer, with the driver or still to be pushed. */
  ghost predicate Conserved(x: Packets, pending: multiset<Packet>) {
    |x.bufs| == 2 && !x.fault && forall p :: x.refs[p] == Owned(x, p) + pending[p]
  }

  ghost predicate BelowBurst(x: Packets) {
    forall d, i :: 0 <= d < |x.bufs| && 0 <= i < |x.bufs[d]| ==> |x.bufs[d][i]| < MAX_PKT_BURST
  }

  lemma SetBufOwned(x: Packets, d: nat, i: nat, b: seq<Packet>, p: Packet)
    requires |x.bufs| == 2 && d < 2 && i < |x.bufs[d]|
    ensures Owned(SetBuf(x, d, i, b), p) + multiset(x.bufs[d][i])[p] == Owned(x, p) + multiset(b)[p]
  {
    HeldSet(x.bufs[d], i, b, p);
  }

  /* A transmission gives up exactly the references it frees, and it had them. */
  lemma TransmitOwned(x: Packets, d: nat, i: nat, sent: nat, p: Packet)
    requires |x.bufs| == 2 && d < 2 && i < |x.bufs[d]| && sent <= |x.bufs[d][i]|
    ensures Owned(Transmit(x, d, i, sent), p) + multiset(x.bufs[d][i][sent..])[p] == Owned(x, p)
  {
    var b := x.bufs[d][i];
    assert b == b[..sent] + b[sent..];
    SetBufOwned(x, d, i, [], p);
  }

  lemma TransmitConserves(x: Packets, d: nat, i: nat, sent: nat, pending: multiset<Packet>)
    requires Conserved(x, pending) && d < 2 && i < |x.bufs[d]| && sent <= |x.bufs[d][i]|
    ensures Conserved(Transmit(x, d, i, sent), pending)
  {
    hide Owned, SameOffSide;
    forall p ensures Owned(Transmit(x, d, i, sent), p) + multiset(x.bufs[d][i][sent..])[p] == Owned(x, p) {
      TransmitOwned(x, d, i, sent, p);
    }
  }

  /* ----- The packet invariant ----- */

  /** References the worker still has to place: packets not yet classified and copies not yet pushed. */
  ghost function Pending(w: Worker): multiset<Packet> {
    match w
    case Classify(_, rx) => multiset(rx)
    case Fan(_, p, dests, rx) => multiset(rx) + Copies(p, |dests|)
    case _ => multiset{}
  }

  ghost predicate Quiet(bufs: seq<seq<Packet>>, n: nat) {
    forall i :: 0 <= i < n && i < |bufs| ==> bufs[i] == []
  }

  /** Some mbuf was freed that had no reference left, or has fewer references than owners. */
  ghost predicate Broken(x: Packets, pending: multiset<Packet>) {
    |x.bufs| == 2 && (x.fault || exists p :: x.refs[p] < Owned(x, p) + pending[p])
  }

  /** References are conserved until a packet is rejected, and not from then on. */
  ghost predicate Settled(x: Packets, pending: multiset<Packet>, rejected: bool) {
    if rejected then Broken(x, pending) else Conserved(x, pending)
  }

  ghost predicate PacketInv(x: Packets, w: Worker, ref: nat, rejected: bool) {
    && |x.bufs| == 2 && ref < 2 && (HasSide(w) ==> w.side == ref)
    && Settled(x, Pending(w), rejected) && BelowBurst(x)
    && Quiet(x.bufs[1 - ref], |x.bufs[1 - ref]|)
    && (w.Flush? ==> Quiet(x.bufs[ref], w.i))
    && (w.Fan? ==> w.dests != [] && InRange(w.dests, |x.bufs[ref]|))
  }

  /** No mbuf comes closer to having a reference for each of its owners. */
  ghost predicate NoBetter(x: Packets, y: Packets, pending: multiset<Packet>, pending': multiset<Packet>) {
    && |x.bufs| == |y.bufs| == 2 && (x.fault ==> y.fault)
    && (!y.fault ==> forall p :: y.refs[p] + Owned(x, p) + pending[p] <= x.refs[p] + Owned(y, p) + pending'[p])
  }

  lemma BrokenStays(x: Packets, y: Packets, pending: multiset<Packet>, pending': multiset<Packet>)
    requires Broken(x, pending) && NoBetter(x, y, pending, pending')
    ensures Broken(y, pending')
  {
    hide Owned;
    if !y.fault {
      var p :| x.refs[p] < Owned(x, p) + pending[p];
      assert y.refs[p] + Owned(x, p) + pending[p] <= x.refs[p] + Owned(y, p) + pending'[p];
    }
  }

  lemma SettledStays(x: Packets, y: Packets, pending: multiset<Packet>, pending': multiset<Packet>, rejected: bool)
    requires Settled(x, pending, rejected)
    requires rejected ==> NoBetter(x, y, pending, pending')
    requires !rejected ==> Conserved(y, pending')
    ensures Settled(y, pending', rejected)
  {
    hide NoBetter, Broken, Conserved;
    if rejected {
      BrokenStays(x, y, pending, pending');
    }
  }

  lemma FreeNoBetter(x: Packets, pkts: seq<Packet>, pending: multiset<Packet>)
    requires |x.bufs| == 2
    ensures NoBetter(x, Free(x, pkts), pending, pending)
  {
    assert forall p :: Owned(Free(x, pkts), p) == Owned(x, p);
  }

  lemma TransmitNoBetter(x: Packets, d: nat, i: nat, sent: nat, pending: multiset<Packet>)
    requires |x.bufs| == 2 && d < 2 && i < |x.bufs[d]| && sent <= |x.bufs[d][i]|
    ensures NoBetter(x, Transmit(x, d, i, sent), pending, pending)
  {
    hide Owned, SameOffSide;
    forall p ensures Owned(Transmit(x, d, i, sent), p) + multiset(x.bufs[d][i][sent..])[p] == Owned(x, p) {
      TransmitOwned(x, d, i, sent, p);
    }
  }

  /* A rejected packet is freed twice: its references no longer match its owners. */
  lemma RejectionBreaks(x: Packets, pkts: seq<Packet>, pending: multiset<Packet>)
    requires Conserved(x, pending) && pkts != []
    ensures Broken(Free(x, pkts), pending)
  {
    var y, p := Free(x, pkts), pkts[0];
    assert Owned(y, p) == Owned(x, p);
    assert p in multiset(pkts);
  }

  lemma TaggedIsPlain(x: Packets, d: nat, i: nat, sent: nat)
    requires d < |x.bufs| && i < |x.bufs[d]| && sent <= |x.bufs[d][i]|
    ensures TransmitTagged(x, d, i, |x.bufs[d][i]|, sent) == Transmit(x, d, i, sent)
  {
    var b := x.bufs[d][i];
    assert b[|b|..] == [];
    assert Free(x, b[|b|..]) == x;
  }

  lemma TaggedSettles(x: Packets, d: nat, i: nat, ok: nat, sent: nat, pending: multiset<Packet>, was: bool, now: bool)
    requires |x.bufs| == 2 && d < 2 && i < |x.bufs[d]| && sent <= ok <= |x.bufs[d][i]|
    requires Settled(x, pending, was) && now == (was || ok < |x.bufs[d][i]|)
    ensures Settled(TransmitTagged(x, d, i, ok, sent), pending, now)
  {
    hide Broken, Conserved, NoBetter, Transmit;
    if !now {
      TaggedIsPlain(x, d, i, sent);
      TransmitConserves(x, d, i, sent, pending);
    } else {
      var y := Free(x, x.bufs[d][i][ok..]);
      if was {
        FreeNoBetter(x, x.bufs[d][i][ok..], pending);
        BrokenStays(x, y, pending, pending);
      } else {
        RejectionBreaks(x, x.bufs[d][i][ok..], pending);
      }
      TransmitNoBetter(y, d, i, sent, pending);
      BrokenStays(y, TransmitTagged(x, d, i, ok, sent), pending, pending);
    }
  }

  lemma TaggedEmpties(x: Packets, d: nat, i: nat, ok: nat, sent: nat)
    requires |x.bufs| == 2 && d < 2 && i < |x.bufs[d]| && sent <= ok <= |x.bufs[d][i]|
    ensures var y := TransmitTagged(x, d, i, ok, sent);
            && y.bufs == x.bufs[d := x.bufs[d][i := []]]
            && (BelowBurst(x) ==> BelowBurst(y)) && (Quiet(x.bufs[d], i) ==> Quiet(y.bufs[d], i + 1))
  {
  }

  /* Emptying the first ports of a side; also the timed drain. */
  lemma TransmitKeepsInv(x: Packets, w: Worker, ref: nat, ok: nat, sent: nat, was: bool, now: bool)
    requires PacketInv(x, w, ref, was) && (w.Flush? || w.Drain?)
    requires w.i < |x.bufs[ref]| && sent <= ok <= |x.bufs[ref][w.i]| && now == (was || ok < |x.bufs[ref][w.i]|)
    ensures PacketInv(TransmitTagged(x, ref, w.i, ok, sent), w.(i := w.i + 1), ref, now)
  {
    hide Settled, BelowBurst, Quiet, TransmitTagged;
    assert Pending(w) == Pending(w.(i := w.i + 1));
    TaggedEmpties(x, ref, w.i, ok, sent);
    TaggedSettles(x, ref, w.i, ok, sent, Pending(w), was, now);
  }

  /* References and what is pending may change together. */
  lemma RefsFollowPending(x: Packets, y: Packets, pending: multiset<Packet>, pending': multiset<Packet>)
    requires |x.bufs| == 2 && y == x.(refs := y.refs)
    requires forall p :: y.refs[p] + pending[p] == x.refs[p] + pending'[p]
    ensures NoBetter(x, y, pending, pending') && (Conserved(x, pending) ==> Conserved(y, pending'))
  {
    assert forall p :: Owned(y, p) == Owned(x, p);
  }

  lemma RefsSettle(x: Packets, y: Packets, pending: multiset<Packet>, pending': multiset<Packet>, rejected: bool)
    requires Settled(x, pending, rejected) && y == x.(refs := y.refs)
    requires forall p :: y.refs[p] + pending[p] == x.refs[p] + pending'[p]
    ensures Settled(y, pending', rejected)
  {
    assert |x.bufs| == 2;
    RefsFollowPending(x, y, pending, pending');
    hide NoBetter, Broken, Conserved;
    SettledStays(x, y, pending, pending', rejected);
  }

  lemma ReceiveKeepsInv(x: Packets, w: Worker, ref: nat, burst: seq<Packet>, rejected: bool)
    requires PacketInv(x, w, ref, rejected) && (w.Receive? || w.Drain?)
    ensures PacketInv(x.(refs := x.refs + multiset(burst)), Classify(ref, burst), ref, rejected)
  {
    hide Settled, Quiet, InRange;
    RefsSettle(x, x.(refs := x.refs + multiset(burst)), Pending(w), multiset(burst), rejected);
  }

  lemma PendingIsReferenced(x: Packets, pending: multiset<Packet>, p: Packet)
    requires Conserved(x, pending) && p in pending
    ensures p in x.refs
  {
  }

  lemma DropCounts(x: Packets, p: Packet, pending: multiset<Packet>)
    requires p in x.refs
    ensures var y := Free(x, [p]);
            y == x.(refs := y.refs) && forall q :: y.refs[q] + (pending + multiset{p})[q] == x.refs[q] + pending[q]
  {
    assert multiset([p]) == multiset{p};
  }

  lemma DropSettles(x: Packets, p: Packet, pending: multiset<Packet>, rejected: bool)
    requires Settled(x, pending + multiset{p}, rejected)
    ensures Settled(Free(x, [p]), pending, rejected)
  {
    if !rejected {
      assert p in pending + multiset{p};
      PendingIsReferenced(x, pending + multiset{p}, p);
    }
    if p in x.refs {
      DropCounts(x, p, pending);
      hide Free, Settled;
      RefsSettle(x, Free(x, [p]), pending + multiset{p}, pending, rejected);
    } else {
      assert p in multiset([p]);
    }
  }

  /* A packet without destination is freed, and its one reference was the pending one. */
  lemma DropKeepsInv(x: Packets, ref: nat, p: Packet, rx: seq<Packet>, rejected: bool)
    requires PacketInv(x, Classify(ref, [p] + rx), ref, rejected)
    ensures PacketInv(Free(x, [p]), Classify(ref, rx), ref, rejected)
  {
    hide Settled, InRange, Quiet;
    assert multiset([p] + rx) == multiset(rx) + multiset{p};
    DropSettles(x, p, multiset(rx), rejected);
  }

  /* `n - 1` references are added for `n` destinations: the packet came with one. */
  lemma FanOutKeepsInv(x: Packets, ref: nat, p: Packet, dests: seq<int>, rx: seq<Packet>, rejected: bool)
    requires PacketInv(x, Classify(ref, [p] + rx), ref, rejected)
    requires dests != [] && InRange(dests, |x.bufs[ref]|)
    ensures PacketInv(x.(refs := x.refs + Copies(p, |dests| - 1)), Fan(ref, p, dests, rx), ref, rejected)
  {
    hide Settled, Quiet, InRange;
    RefsSettle(x, x.(refs := x.refs + Copies(p, |dests| - 1)),
               multiset([p] + rx), multiset(rx) + Copies(p, |dests|), rejected);
  }

  lemma PendingAfterPush(ref: nat, p: Packet, dests: seq<int>, rx: seq<Packet>)
    requires dests != []
    ensures Pending(Fan(ref, p, dests, rx)) == Pending(AfterPush(ref, p, dests, rx)) + multiset{p}
  {
  }

  lemma ClassifyKeepsInv(x: Packets, ref: nat, t: Tables, p: Packet, rx: seq<Packet>, rejected: bool)
    requires PacketInv(x, Classify(ref, [p] + rx), ref, rejected) && Within(t, |x.bufs[ref]|)
    ensures var (w, y) := ClassifyPacket(x, ref, t, p, rx); PacketInv(y, w, ref, rejected)
  {
    var n := |x.bufs[ref]|;
    hide PacketInv, Free, Destinations, Copies;
    if Destinations(t, p.h) == [] {
      DropKeepsInv(x, ref, p, rx, rejected);
    } else {
      WithinIsRouted(t, n, p.h);
      FanOutKeepsInv(x, ref, p, Destinations(t, p.h), rx, rejected);
    }
  }

  lemma PushIsBelow(x: Packets, d: nat, i: nat, p: Packet, ok: nat, sent: nat)
    requires |x.bufs| == 2 && BelowBurst(x) && d < 2 && i < |x.bufs[d]| && sent <= ok <= MAX_PKT_BURST
    ensures BelowBurst(PushTagged(x, d, i, p, ok, sent))
  {
  }

  /* A copy goes from what is pending to a TX buffer. */
  lemma StoreSettles(x: Packets, d: nat, i: nat, p: Packet, pending: multiset<Packet>, rejected: bool)
    requires Settled(x, pending + multiset{p}, rejected) && d < 2 && i < |x.bufs[d]|
    ensures Settled(SetBuf(x, d, i, x.bufs[d][i] + [p]), pending, rejected)
  {
    var x1 := SetBuf(x, d, i, x.bufs[d][i] + [p]);
    forall q ensures Owned(x1, q) == Owned(x, q) + multiset{p}[q] {
      SetBufOwned(x, d, i, x.bufs[d][i] + [p], q);
    }
    hide Owned;
    assert NoBetter(x, x1, pending + multiset{p}, pending);
    SettledStays(x, x1, pending + multiset{p}, pending, rejected);
  }

  lemma PushSettles(x: Packets, d: nat, i: nat, p: Packet, ok: nat, sent: nat, pending: multiset<Packet>,
                    was: bool, now: bool)
    requires Settled(x, pending + multiset{p}, was) && BelowBurst(x)
    requires d < 2 && i < |x.bufs[d]| && sent <= ok <= MAX_PKT_BURST
    requires now == (was || (|x.bufs[d][i]| + 1 == MAX_PKT_BURST && ok < MAX_PKT_BURST))
    ensures Settled(PushTagged(x, d, i, p, ok, sent), pending, now)
  {
    assert |x.bufs| == 2 && |x.bufs[d][i]| < MAX_PKT_BURST;
    StoreSettles(x, d, i, p, pending, was);
    hide Settled, TransmitTagged;
    if |x.bufs[d][i]| + 1 == MAX_PKT_BURST {
      TaggedSettles(SetBuf(x, d, i, x.bufs[d][i] + [p]), d, i, ok, sent, pending, was, now);
    }
  }

  /* Also when the push fills the buffer and a burst goes out in the middle of a fan-out. */
  lemma PushKeepsInv(x: Packets, ref: nat, p: Packet, dests: seq<int>, rx: seq<Packet>, ok: nat, sent: nat,
                     was: bool, now: bool)
    requires PacketInv(x, Fan(ref, p, dests, rx), ref, was) && sent <= ok <= MAX_PKT_BURST
    requires now == (was || (|x.bufs[ref][dests[0]]| + 1 == MAX_PKT_BURST && ok < MAX_PKT_BURST))
    ensures PacketInv(PushTagged(x, ref, dests[0], p, ok, sent), AfterPush(ref, p, dests, rx), ref, now)
  {
    hide Settled, BelowBurst, PushTagged, Pending;
    PushIsBelow(x, ref, dests[0], p, ok, sent);
    PendingAfterPush(ref, p, dests, rx);
    PushSettles(x, ref, dests[0], p, ok, sent, Pending(AfterPush(ref, p, dests, rx)), was, now);
  }

  /* Steps that touch no packet; the sides are exchanged only once the old one is flushed. */
  lemma ControlKeepsInv(x: Packets, w: Worker, ref: nat, w': Worker, ref': nat, rejected: bool)
    requires PacketInv(x, w, ref, rejected) && !w.Classify? && !w.Fan?
    requires || (ref' == ref && (w' in {Top, Fetch, Flush(0), Drain(ref, 0), Receive(ref)}))
             || (ref' == 1 - ref && w' == Fetch && w.Flush? && w.i >= |x.bufs[ref]|)
    ensures PacketInv(x, w', ref', rejected)
  {
    assert Pending(w) == Pending(w');
    hide Settled, BelowBurst;
  }

  lemma ReleaseSettles(x: Packets, p: Packet, pending: multiset<Packet>, rejected: bool)
    requires Settled(x, pending, rejected) && p in x.nic
    ensures Settled(Free(x.(nic := x.nic - multiset{p}), [p]), pending, rejected)
  {
    hide Held;
    var y := Free(x.(nic := x.nic - multiset{p}), [p]);
    assert !rejected ==> x.refs[p] >= x.nic[p];
    assert forall q :: Owned(y, q) + multiset{p}[q] == Owned(x, q);
    assert multiset([p]) == multiset{p};
    assert NoBetter(x, y, pending, pending) && (!rejected ==> Conserved(y, pending));
    hide Owned, NoBetter, Conserved, Broken, Free;
    SettledStays(x, y, pending, pending, rejected);
  }

  lemma ReleaseKeepsInv(x: Packets, w: Worker, ref: nat, p: Packet, rejected: bool)
    requires PacketInv(x, w, ref, rejected) && p in x.nic
    ensures PacketInv(Free(x.(nic := x.nic - multiset{p}), [p]), w, ref, rejected)
  {
    hide Settled;
    ReleaseSettles(x, p, Pending(w), rejected);
  }

  lemma ReplaceSettles(x: Packets, d: nat, bufs: seq<seq<Packet>>, pending: multiset<Packet>, rejected: bool)
    requires Settled(x, pending, rejected) && d < 2
    requires Quiet(bufs, |bufs|) && Quiet(x.bufs[d], |x.bufs[d]|)
    ensures Settled(x.(bufs := x.bufs[d := bufs]), pending, rejected)
  {
    var y := x.(bufs := x.bufs[d := bufs]);
    forall p ensures Owned(y, p) == Owned(x, p) {
      HeldEmpty(x.bufs[d], p);
      HeldEmpty(bufs, p);
    }
    hide Owned;
    SettledStays(x, y, pending, pending, rejected);
  }

  lemma ReplaceIsBelow(x: Packets, d: nat, bufs: seq<seq<Packet>>)
    requires BelowBurst(x) && d < |x.bufs| && Quiet(bufs, |bufs|)
    ensures BelowBurst(x.(bufs := x.bufs[d := bufs]))
  {
  }

  /* Replacing the empty buffers of the side the worker does not use loses no packet. */
  lemma ReplaceKeepsInv(x: Packets, w: Worker, ref: nat, bufs: seq<seq<Packet>>, rejected: bool)
    requires PacketInv(x, w, ref, rejected) && Quiet(bufs, |bufs|)
    ensures PacketInv(x.(bufs := x.bufs[1 - ref := bufs]), w, ref, rejected)
  {
    hide Settled, BelowBurst, Quiet, InRange;
    ReplaceSettles(x, 1 - ref, bufs, Pending(w), rejected);
    ReplaceIsBelow(x, 1 - ref, bufs);
  }

  /** The tables of a side are those of a configuration, up to its first `n` ports. */
  ghost predicate Follows(side: Side, ports: seq<TxPort>, n: nat) {
    n <= |ports| == side.nofTx && side.tables == BuildFrom(map[], ports, n)
  }

  ghost predicate ConfigInv(s: State)
    requires WellFormed(s)
  {
    && Follows(s.sides[s.ref], s.cfg, |s.cfg|)
    && (s.m.Building? && !s.dirty ==> Follows(s.sides[s.upd], s.m.ports, s.m.i))
    && (s.m.Waiting? && s.ref == s.upd ==> Follows(s.sides[1 - s.ref], s.m.ports, |s.m.ports|))
    && (s.m.Waiting? && s.ref != s.upd ==> s.cfg == s.m.ports)
    && (s.m.Wiping? ==> s.cfg == s.m.ports)
  }

  /** The tables of the side the worker uses, or is about to use, name only ports of that side. */
  ghost predicate RoutesInv(s: State)
    requires WellFormed(s)
  {
    && Within(s.sides[s.ref].tables, s.sides[s.ref].nofTx)
    && (s.m.Waiting? && s.ref == s.upd ==> Within(s.sides[1 - s.ref].tables, s.sides[1 - s.ref].nofTx))
  }

  ghost predicate Inv(s: State) {
    && ProtocolInv(s) && (!s.stale ==> !s.astray && ConfigInv(s))
    && (!s.astray ==> RoutesInv(s) && PacketInv(s.x, s.w, s.ref, s.rejected))
  }

  lemma ConfigStep(s: State, e: Event)
    requires Inv(s) && Enabled(s, e) && !Apply(s, e).stale
    requires ProtocolInv(Apply(s, e))
    ensures ConfigInv(Apply(s, e)) && !Apply(s, e).astray
  {
    hide PacketInv, Move, Rejects, RoutesInv, Within;
    if e.MBegin? || e.MPort? {
      ConfigBuild(s, e);
    } else {
      hide Register, LeftOver;
      if e.MPublish? {
        BuildIsWithin(s.m.ports);
      }
    }
  }

  lemma ConfigBuild(s: State, e: Event)
    requires Inv(s) && Enabled(s, e) && !s.stale && (e.MBegin? || e.MPort?)
    ensures ProtocolInv(Apply(s, e)) && ConfigInv(Apply(s, e)) && !Apply(s, e).astray
  {
    hide PacketInv, Move, Rejects, RoutesInv, Within;
  }

  lemma BuildIsWithin(ports: seq<TxPort>)
    ensures Within(Build(ports), |ports|)
  {
    BuildFromWithin(map[], ports, |ports|, |ports|);
  }

  lemma RoutesStep(s: State, e: Event)
    requires Inv(s) && Enabled(s, e) && !Apply(s, e).astray
    requires ProtocolInv(Apply(s, e))
    ensures RoutesInv(Apply(s, e))
  {
    hide PacketInv, Move, Rejects, ConfigInv, Within;
  }

  lemma EndOfBurstKeepsInv(x: Packets, ref: nat, rejected: bool)
    requires PacketInv(x, Classify(ref, []), ref, rejected)
    ensures PacketInv(x, Top, ref, rejected)
  {
    assert Pending(Classify(ref, [])) == Pending(Top);
  }

  lemma PacketMove(s: State, e: Event)
    requires Inv(s) && Enabled(s, e) && MovesPackets(e) && !s.astray
    ensures var (w, x) := Move(s, e); PacketInv(x, w, s.ref, s.rejected || Rejects(s, e))
  {
    hide Settled, BelowBurst, Quiet, InRange, PushTagged, TransmitTagged, Free, ClassifyPacket, Pending, Within;
    var now := s.rejected || Rejects(s, e);
    match e
    case WFlush(ok, sent) => TransmitKeepsInv(s.x, s.w, s.ref, ok, sent, s.rejected, now);
    case WDrain(ok, sent) => TransmitKeepsInv(s.x, s.w, s.ref, ok, sent, s.rejected, now);
    case WReceive(burst) => ReceiveKeepsInv(s.x, s.w, s.ref, burst, s.rejected);
    case WClassify =>
      if s.w.rx == [] {
        EndOfBurstKeepsInv(s.x, s.ref, s.rejected);
      } else {
        assert s.w.rx == [s.w.rx[0]] + s.w.rx[1..];
        ClassifyKeepsInv(s.x, s.ref, s.sides[s.ref].tables, s.w.rx[0], s.w.rx[1..], s.rejected);
      }
    case WPush(ok, sent) => PushMove(s, ok, sent);
    case NicRelease(p) => ReleaseKeepsInv(s.x, s.w, s.ref, p, s.rejected);
  }

  lemma PushMove(s: State, ok: nat, sent: nat)
    requires Inv(s) && Enabled(s, WPush(ok, sent)) && !s.astray
    ensures PacketInv(PushTagged(s.x, s.ref, s.w.dests[0], s.w.p, ok, sent), AfterPush(s.ref, s.w.p, s.w.dests, s.w.rx),
                      s.ref, s.rejected || Rejects(s, WPush(ok, sent)))
  {
    hide Settled, BelowBurst, Quiet, PushTagged, Pending, ConfigInv, RoutesInv;
    PushKeepsInv(s.x, s.ref, s.w.p, s.w.dests, s.w.rx, ok, sent, s.rejected, s.rejected || Rejects(s, WPush(ok, sent)));
  }

  lemma EmptyIsQuiet(n: nat)
    ensures Quiet(seq(n, _ => []), n) && Quiet([], 0)
  {
  }

  lemma BeginKeepsInv(s: State, ports: seq<TxPort>, rxUndef: bool)
    requires Inv(s) && Enabled(s, MBegin(ports, rxUndef)) && !s.astray
    ensures var t := Apply(s, MBegin(ports, rxUndef)); PacketInv(t.x, t.w, t.ref, t.rejected)
  {
    assert s.upd == 1 - s.ref;
    hide PacketInv, Quiet, ConfigInv, RoutesInv, Within;
    EmptyIsQuiet(|ports|);
    ReplaceKeepsInv(s.x, s.w, s.ref, seq(|ports|, _ => []), s.rejected);
  }

  lemma WipeKeepsInv(s: State)
    requires Inv(s) && Enabled(s, MWipe) && !s.astray
    ensures var t := Apply(s, MWipe); PacketInv(t.x, t.w, t.ref, t.rejected)
  {
    assert s.upd == 1 - s.ref;
    hide PacketInv, Quiet, ConfigInv, RoutesInv, Within;
    EmptyIsQuiet(0);
    ReplaceKeepsInv(s.x, s.w, s.ref, [], s.rejected);
  }

  lemma PacketMaster(s: State, e: Event)
    requires Inv(s) && Enabled(s, e) && ByMaster(e) && !s.astray
    ensures var t := Apply(s, e); PacketInv(t.x, t.w, t.ref, t.rejected)
  {
    if e.MBegin? {
      hide Inv, Apply, PacketInv;
      BeginKeepsInv(s, e.ports, e.rxUndef);
    } else if e.MWipe? {
      hide Inv, Apply, PacketInv;
      WipeKeepsInv(s);
    } else {
      hide PacketInv, ConfigInv, RoutesInv, Within, StorePort;
    }
  }

  lemma PacketControl(s: State, e: Event)
    requires Inv(s) && Enabled(s, e) && !ByMaster(e) && !MovesPackets(e) && !s.astray
    ensures var t := Apply(s, e); PacketInv(t.x, t.w, t.ref, t.rejected)
  {
    var t := Apply(s, e);
    hide PacketInv, ConfigInv, RoutesInv, Within;
    ControlKeepsInv(s.x, s.w, s.ref, t.w, t.ref, s.rejected);
  }

  lemma PacketStep(s: State, e: Event)
    requires Inv(s) && Enabled(s, e) && !Apply(s, e).astray
    ensures var t := Apply(s, e); PacketInv(t.x, t.w, t.ref, t.rejected)
  {
    assert !s.astray;
    if MovesPackets(e) {
      hide Inv, PacketInv, Move, Rejects;
      PacketMove(s, e);
    } else if ByMaster(e) {
      hide Inv, PacketInv, Apply;
      PacketMaster(s, e);
    } else {
      hide Inv, PacketInv, Apply;
      PacketControl(s, e);
    }
  }

  /* ----- Whole runs ----- */

  lemma Step(s: State, e: Event)
    requires Inv(s) && Enabled(s, e)
    ensures Inv(Apply(s, e))
  {
    hide PacketInv, ConfigInv, RoutesInv, ProtocolInv;
    if ByMaster(e) {
      ProtocolMaster(s, e);
    } else {
      ProtocolWorker(s, e);
    }
    if !Apply(s, e).stale {
      ConfigStep(s, e);
    }
    if !Apply(s, e).astray {
      RoutesStep(s, e);
      PacketStep(s, e);
    }
  }

  lemma InitInv(s: State)
    requires Init(s)
    ensures Inv(s)
  {
    assert forall p :: Owned(s.x, p) == 0;
  }

  lemma {:induction false} RunInv(s: State, run: seq<Event>)
    requires Inv(s) && IsRun(s, run)
    ensures Inv(End(s, run))
    decreases |run|
  {
    hide Inv;
    if run != [] {
      Step(s, run[0]);
      RunInv(Apply(s, run[0]), run[1..]);
    }
  }

  lemma ReachableInv(s: State, run: seq<Event>)
    requires Init(s) && IsRun(s, run)
    ensures Inv(End(s, run))
  {
    InitInv(s);
    RunInv(s, run);
  }

  /* The master never builds or wipes the side the worker is using. Holds for every run. */
  lemma {:induction false} SidesAreNeverShared(s: State, run: seq<Event>)
    requires Init(s) && IsRun(s, run)
    ensures MasterSide(End(s, run)) !! WorkerSide(End(s, run))
  {
    ReachableInv(s, run);
    hide IsRun, End, Conserved, BelowBurst;
  }

  /* When an update begins its side is all zero, exactly if no update was given up since the
     last wipe. Holds for every run. */
  lemma {:induction false} UpdateSideIsWiped(s: State, run: seq<Event>)
    requires Init(s) && IsRun(s, run)
    ensures var t := End(s, run);
            |t.sides| == 2 && t.upd < 2 && (t.m.Idle? ==> (t.sides[t.upd] == WIPED <==> !t.dirty))
  {
    ReachableInv(s, run);
    hide IsRun, End, Conserved, BelowBurst;
  }

  lemma WipedSideIsQuiet(t: State)
    requires Inv(t) && !t.astray && t.m.Wiping?
    ensures Quiet(t.x.bufs[t.upd], |t.x.bufs[t.upd]|)
  {
    hide Settled, BelowBurst, Quiet, ConfigInv, RoutesInv;
    assert t.upd == 1 - t.ref;
  }

  /* While every side that is published names only ports it has, wiping the old side discards
     no packet. */
  lemma {:induction false} WipeDiscardsNothing(s: State, run: seq<Event>, i: nat)
    requires Init(s) && IsRun(s, run) && !End(s, run).astray && End(s, run).m.Wiping?
    requires End(s, run).upd < |End(s, run).x.bufs| && i < |End(s, run).x.bufs[End(s, run).upd]|
    ensures End(s, run).x.bufs[End(s, run).upd][i] == []
  {
    var t := End(s, run);
    ReachableInv(s, run);
    WipedSideIsQuiet(t);
    hide Inv, IsRun, End;
  }

  /* While every side that is published names only ports it has, every TX buffer has room for
     one more packet; and every reference of every mbuf is in a TX buffer, with the driver or
     about to be pushed, with nothing freed that had no reference, exactly in the runs in which
     no VLAN operation rejected a packet. */
  lemma {:induction false} ReferencesAreConserved(s: State, run: seq<Event>)
    requires Init(s) && IsRun(s, run) && !End(s, run).astray
    ensures var t := End(s, run);
            BelowBurst(t.x) && (Conserved(t.x, Pending(t.w)) <==> !t.rejected)
  {
    ReachableInv(s, run);
    hide IsRun, End, BelowBurst, Owned;
  }

  /* A run that publishes no side left over by a failed update never names a missing port. */
  lemma {:induction false} CleanRunsStayOnPorts(s: State, run: seq<Event>)
    requires Init(s) && IsRun(s, run) && !End(s, run).stale
    ensures !End(s, run).astray
  {
    ReachableInv(s, run);
    hide IsRun, End, Conserved, BelowBurst;
  }

  /* While no dirty side is published, the worker's tables are those of the configuration it
     is to follow, and that is the new one as soon as the master stops waiting. */
  lemma {:induction false} WorkerFollowsConfig(s: State, run: seq<Event>)
    requires Init(s) && IsRun(s, run) && !End(s, run).stale
    ensures var t := End(s, run);
            && |t.sides| == 2 && t.ref < 2 && t.sides[t.ref].tables == Build(t.cfg)
            && (t.m.Wiping? ==> t.cfg == t.m.ports)
  {
    ReachableInv(s, run);
    hide IsRun, End, Conserved, BelowBurst;
  }

  /* ----- The wait of the master ends ----- */

  ghost function Fetches(run: seq<Event>): nat {
    if run == [] then 0 else (if run[0].WFetch? then 1 else 0) + Fetches(run[1..])
  }

  ghost predicate NoMaster(run: seq<Event>) {
    forall i :: 0 <= i < |run| ==> !ByMaster(run[i])
  }

  /* While the master still waits, the worker can at most have finished entering the pass it
     was in: the start of its next pass ends the wait. */
  lemma {:induction false} WaitEndsWithNextPass(s: State, run: seq<Event>)
    requires ProtocolInv(s) && s.m.Waiting? && IsRun(s, run) && NoMaster(run)
    requires End(s, run).ref == End(s, run).upd
    ensures s.ref == s.upd && Fetches(run) <= if s.w.Fetch? then 1 else 0
    decreases |run|
  {
    if run != [] {
      ProtocolWorker(s, run[0]);
      StaysPublished(s, run[0]);
      WaitEndsWithNextPass(Apply(s, run[0]), run[1..]);
    }
  }

  lemma StaysPublished(s: State, e: Event)
    requires ProtocolInv(s) && s.m.Waiting? && Enabled(s, e) && !ByMaster(e)
    ensures var t := Apply(s, e);
            && t.m == s.m && t.upd == s.upd && t.sides == s.sides
            && (t.ref == t.upd ==> t.ref == s.ref && (t.w.Fetch? ==> s.w.Fetch? && !e.WFetch?))
  {
    hide Move, Rejects;
    if MovesPackets(e) {
      MoveFrame(s, e);
      MoveSkipsFetch(s, e);
    }
  }

  lemma MoveSkipsFetch(s: State, e: Event)
    requires Enabled(s, e) && MovesPackets(e)
    ensures Move(s, e).0.Fetch? ==> s.w.Fetch? && e.NicRelease?
  {
    hide Destinations, PushTagged, TransmitTagged, Free, Copies;
  }

  /* The worker always has a next step of its own. */
  lemma WorkerIsNeverStuck(s: State)
    requires ProtocolInv(s)
    ensures exists e :: Enabled(s, e) && !ByMaster(e) && !e.NicRelease?
  {
    var e := match s.w
      case Top => WCheck
      case Flush(i) => if i < s.sides[s.ref].nofTx then WFlush(0, 0) else WFlip
      case Fetch => WFetch(false)
      case Drain(_, i) => if i < s.sides[s.ref].nofTx then WDrain(0, 0) else WReceive([])
      case Receive(_) => WReceive([])
      case Classify(_, _) => WClassify
      case Fan(_, _, _, _) => WPush(0, 0);
    assert Enabled(s, e);
  }

  /** The longest list of ports under the first `n` VIDs. */
  ghost function Longest(t: Tables, n: nat): nat
    requires n <= 0x1000
  {
    if n == 0 then 0
    else
      var m := Longest(t, n - 1);
      if n - 1 in t && |t[n-1].ports| > m then |t[n-1].ports| else m
  }

  lemma {:induction false} LongestBounds(t: Tables, n: nat, vid: Vid)
    requires vid < n <= 0x1000 && vid in t
    ensures |t[vid].ports| <= Longest(t, n)
  {
    if vid < n - 1 {
      LongestBounds(t, n - 1, vid);
    }
  }

  lemma FewDestinations(t: Tables, h: Header)
    ensures |Destinations(t, h)| <= Longest(t, 0x1000) + 1
  {
    if GetVid(h) in t {
      LongestBounds(t, 0x1000, GetVid(h));
    }
  }

  ghost function Times(n: nat, c: nat): nat {
    if n == 0 then 0 else c + Times(n - 1, c)
  }

  lemma {:induction false} TimesGrows(m: nat, n: nat, c: nat)
    requires m <= n
    ensures Times(m, c) <= Times(n, c)
  {
    if m > 0 {
      TimesGrows(m - 1, n - 1, c);
    }
  }

  /** A bound on the worker's events before it takes over an update that has been published. */
  ghost function Rank(w: Worker, side: Side): nat {
    var top, c := side.nofTx + 2, Longest(side.tables, 0x1000) + 2;
    match w
    case Flush(i) => if i <= side.nofTx then side.nofTx - i + 1 else 1
    case Top => top
    case Classify(_, rx) => top + 1 + Times(|rx|, c)
    case Fan(_, _, dests, rx) => top + 1 + |dests| + Times(|rx|, c)
    case Receive(_) => top + 2 + Times(MAX_PKT_BURST, c)
    case Drain(_, i) => top + 3 + Times(MAX_PKT_BURST, c) + if i <= side.nofTx then side.nofTx - i else 0
    case Fetch => top + 4 + Times(MAX_PKT_BURST, c) + side.nofTx
  }

  lemma RankFallsInPass(s: State, e: Event)
    requires ProtocolInv(s) && Enabled(s, e) && MovesPackets(e) && !e.NicRelease?
    ensures Rank(Move(s, e).0, s.sides[s.ref]) < Rank(s.w, s.sides[s.ref])
  {
    hide Destinations, PushTagged, TransmitTagged, Free, Longest, Copies;
    var side := s.sides[s.ref];
    var c := Longest(side.tables, 0x1000) + 2;
    match e
    case WReceive(burst) => TimesGrows(|burst|, MAX_PKT_BURST, c);
    case WClassify =>
      if s.w.rx != [] {
        FewDestinations(side.tables, s.w.rx[0].h);
      }
    case _ =>
  }

  lemma RankFalls(s: State, e: Event)
    requires ProtocolInv(s) && s.m.Waiting? && s.ref == s.upd && Enabled(s, e) && !ByMaster(e)
    ensures var t := Apply(s, e);
            && (e.NicRelease? ==> t.w == s.w)
            && (!e.NicRelease? && t.ref == t.upd ==> Rank(t.w, s.sides[s.ref]) < Rank(s.w, s.sides[s.ref]))
  {
    if e.NicRelease? {
      assert Apply(s, e).w == s.w;
    } else if MovesPackets(e) {
      hide Move, Rank, Rejects;
      RankFallsInPass(s, e);
    }
  }

  ghost function WorkerSteps(run: seq<Event>): nat {
    if run == [] then 0 else (if ByMaster(run[0]) || run[0].NicRelease? then 0 else 1) + WorkerSteps(run[1..])
  }

  /* The master's wait ends: a worker that has not yet taken the update over has made no more
     steps than the rank of its place when it was published, and it always has a next one. */
  lemma {:induction false} WaitIsBounded(s: State, run: seq<Event>)
    requires ProtocolInv(s) && s.m.Waiting? && s.ref < |s.sides| && IsRun(s, run) && NoMaster(run)
    requires End(s, run).ref == End(s, run).upd
    ensures WorkerSteps(run) + Rank(End(s, run).w, s.sides[s.ref]) <= Rank(s.w, s.sides[s.ref])
    ensures exists e :: Enabled(End(s, run), e) && !ByMaster(e) && !e.NicRelease?
    decreases |run|
  {
    WaitEndsWithNextPass(s, run);
    if run == [] {
      WorkerIsNeverStuck(s);
    } else {
      hide Rank, Enabled;
      assert !ByMaster(run[0]);
      ProtocolWorker(s, run[0]);
      StaysPublished(s, run[0]);
      RankFalls(s, run[0]);
      var t := Apply(s, run[0]);
      WaitEndsWithNextPass(t, run[1..]);
      WaitIsBounded(t, run[1..]);
    }
  }

  /* ----- Before the worker's first pass both indexes are equal ----- */

  predicate Boot(s: State) {
    Init(s.(ref := 1)) && s.ref == s.upd == 0
  }

  /* The worker's first pass makes the indexes differ. */
  lemma {:induction false} FirstPassMakesReady(s: State)
    requires Boot(s)
    ensures var run := [WCheck, WFlip, WFetch(false)];
            IsRun(s, run) && Init(End(s, run))
  {
    assert Enabled(s, WCheck) && Apply(s, WCheck) == s.(w := Flush(0)) by { FindsEqual(s); }
    FirstFlip(s.(w := Flush(0)));
    var s2 := s.(w := Fetch, ref := 1);
    FetchesNothing(s2);
    assert Init(s2.(w := Top));
    hide Apply, Enabled, IsRun, End, WellFormed, Init;
    assert [WCheck, WFlip, WFetch(false)] == [WCheck] + ([WFlip] + [WFetch(false)]);
    OneEvent(s2, WFetch(false));
    PutFirst(s.(w := Flush(0)), WFlip, [WFetch(false)]);
    PutFirst(s, WCheck, [WFlip] + [WFetch(false)]);
  }

  lemma FirstFlip(s: State)
    requires WellFormed(s) && s.w.Flush? && s.w.i >= s.sides[s.ref].nofTx && s.m.Idle? && s.upd == 0
    ensures Enabled(s, WFlip) && Apply(s, WFlip) == s.(w := Fetch, ref := 1)
  {
  }

  lemma FetchesNothing(s: State)
    requires WellFormed(s) && s.w.Fetch? && s.sides[s.ref] == WIPED
    ensures Enabled(s, WFetch(false)) && Apply(s, WFetch(false)) == s.(w := Top)
  {
  }

  lemma WorkerKeepsSides(s: State, e: Event)
    requires Enabled(s, e) && !ByMaster(e)
    ensures var t := Apply(s, e); t.m == s.m && t.upd == s.upd && t.sides == s.sides
  {
    hide Move, Rejects;
  }

  lemma {:induction false} WaitKeepsSides(s: State, run: seq<Event>)
    requires s.m.Waiting? && IsRun(s, run) && NoMaster(run)
    ensures var t := End(s, run); t.m == s.m && t.upd == s.upd && t.sides == s.sides
    decreases |run|
  {
    if run != [] {
      hide Apply, Enabled;
      assert !ByMaster(run[0]);
      WorkerKeepsSides(s, run[0]);
      WaitKeepsSides(Apply(s, run[0]), run[1..]);
    }
  }

  function FinishUpdate(s: State): (t: State)
    requires Enabled(s, MDone)
    ensures t.m.Idle? && t.ref == s.ref && t.upd == s.upd && t.sides == s.sides[s.upd := WIPED]
  {
    Apply(Apply(s, MDone), MWipe)
  }

  /* From publication to wipe: what was built is what the worker ends up with, exactly when
     the indexes differed at publication. Otherwise it is wiped. */
  lemma {:induction false} UpdateSurvivesIffIndexesDiffer(s: State, ws: seq<Event>, u: State)
    requires Enabled(s, MPublish) && s.sides[s.upd] != WIPED && NoMaster(ws)
    requires IsRun(Apply(s, MPublish), ws) && u == End(Apply(s, MPublish), ws) && Enabled(u, MDone)
    ensures var t := FinishUpdate(u);
            && (s.ref != s.upd <==> t.ref == s.upd && t.sides[t.ref] == s.sides[s.upd])
            && (s.ref == s.upd ==> t.sides[s.upd] == WIPED)
  {
    var p := Apply(s, MPublish);
    assert p.m.Waiting? && p.upd == s.ref && p.sides == s.sides && WellFormed(p);
    hide Apply, FinishUpdate;
    WaitKeepsSides(p, ws);
  }

  /* ----- Particular runs ----- */

  lemma {:induction false} RunConcat(s: State, a: seq<Event>, b: seq<Event>)
    requires IsRun(s, a) && IsRun(End(s, a), b)
    ensures IsRun(s, a + b) && End(s, a + b) == End(End(s, a), b)
    decreases |a|
  {
    hide Apply, Enabled;
    if a == [] {
      assert a + b == b;
    } else {
      assert (a + b)[1..] == a[1..] + b;
      RunConcat(Apply(s, a[0]), a[1..], b);
    }
  }

  lemma OneEvent(s: State, e: Event)
    requires Enabled(s, e)
    ensures IsRun(s, [e]) && End(s, [e]) == Apply(s, e)
  {
    hide Apply, Enabled;
    assert [e][1..] == [];
  }

  lemma Begins(s: State, ports: seq<TxPort>)
    requires WellFormed(s) && s.m.Idle?
    ensures Enabled(s, MBegin(ports, false))
    ensures var t := Apply(s, MBegin(ports, false));
            && WellFormed(t) && t.m == Building(ports, 0)
            && t.sides == s.sides[s.upd := Side(false, false, s.sides[s.upd].tables, |ports|)]
            && t == s.(m := t.m, sides := t.sides, x := s.x.(bufs := s.x.bufs[s.upd := seq(|ports|, _ => [])]))
  {
  }

  lemma Registers(s: State)
    requires WellFormed(s) && s.m.Building? && s.m.i < |s.m.ports|
    ensures Enabled(s, MPort)
    ensures var t := Apply(s, MPort);
            && WellFormed(t) && t.m == Building(s.m.ports, s.m.i + 1)
            && t.sides == s.sides[s.upd := StorePort(s.sides[s.upd], s.m.ports, s.m.i, true)]
            && t == s.(m := t.m, sides := t.sides)
  {
  }

  lemma Fails(s: State)
    requires WellFormed(s) && s.m.Building? && s.m.i < |s.m.ports|
    requires s.m.ports[s.m.i].mac != 0 && s.m.ports[s.m.i].mac != CLS_DUMMY_ADDR
    ensures Enabled(s, MFail(true))
    ensures var t := Apply(s, MFail(true));
            && WellFormed(t)
            && t.sides == s.sides[s.upd := StorePort(s.sides[s.upd], s.m.ports, s.m.i, false)]
            && t == s.(m := Idle, sides := t.sides, dirty := true)
  {
  }

  lemma Publishes(s: State)
    requires WellFormed(s) && s.m.Building? && s.m.i == |s.m.ports|
    ensures Enabled(s, MPublish)
    ensures var t := Apply(s, MPublish);
            && WellFormed(t) && t.astray == (s.astray || !Within(s.sides[s.upd].tables, s.sides[s.upd].nofTx))
            && t == s.(m := Waiting(s.m.ports), upd := s.ref, stale := s.stale || s.dirty, astray := t.astray)
  {
  }

  /** A one-port update up to its publication. */
  function PublishOne(p: TxPort): seq<Event> {
    [MBegin([p], false)] + [MPort] + [MPublish]
  }

  lemma PublishOneRun(s: State, p: TxPort)
    requires WellFormed(s) && s.m.Idle?
    ensures IsRun(s, PublishOne(p))
    ensures var t := End(s, PublishOne(p));
            && WellFormed(t) && t.m == Waiting([p]) && t.ref == t.upd == s.ref && t.w == s.w && t.x.refs == s.x.refs
            && t.stale == (s.stale || s.dirty) && t.astray == (s.astray || !Within(t.sides[s.upd].tables, 1))
            && t.sides == s.sides[s.upd := Side(false, p.mac != 0, Register(s.sides[s.upd].tables, p, 0), 1)]
            && t.x.bufs[s.upd] == [[]]
  {
    hide Apply, Enabled, IsRun, End, Within, Register;
    Begins(s, [p]);
    var s1 := Apply(s, MBegin([p], false));
    Registers(s1);
    var s2 := Apply(s1, MPort);
    Publishes(s2);
    OneEvent(s, MBegin([p], false));
    OneEvent(s1, MPort);
    OneEvent(s2, MPublish);
    RunConcat(s, [MBegin([p], false)], [MPort]);
    RunConcat(s, [MBegin([p], false)] + [MPort], [MPublish]);
  }

  lemma FindsEqual(s: State)
    requires WellFormed(s) && s.w.Top? && s.ref == s.upd
    ensures Enabled(s, WCheck) && Apply(s, WCheck) == s.(w := Flush(0))
  {
  }

  lemma FlipsOver(s: State)
    requires WellFormed(s) && s.w.Flush? && s.w.i >= s.sides[s.ref].nofTx && s.m.Waiting?
    ensures Enabled(s, WFlip) && Apply(s, WFlip) == s.(w := Fetch, ref := 1 - s.upd, cfg := s.m.ports)
  {
  }

  /* Concretely: an update that is published before the worker's first pass is lost. */
  lemma {:induction false} UpdateBeforeFirstPassIsLost(s: State, p: TxPort)
    requires Boot(s)
    ensures var run := PublishOne(p) + ([WCheck] + ([WFlush(0, 0)] + ([WFlip] + ([MDone] + [MWipe]))));
            && IsRun(s, run) && End(s, run).m.Idle? && s.upd == 0
            && |End(s, run).sides| == 2 && End(s, run).sides[0] == WIPED
  {
    hide Apply, Enabled, IsRun, End, PublishOne, Within, Register;
    PublishOneRun(s, p);
    var t := End(s, PublishOne(p));
    LastPassWipes(t);
    RunConcat(s, PublishOne(p), [WCheck] + ([WFlush(0, 0)] + ([WFlip] + ([MDone] + [MWipe]))));
  }

  lemma {:induction false} LastPassWipes(t: State)
    requires WellFormed(t) && t.m.Waiting? && t.w.Top? && t.ref == t.upd && t.sides[t.ref].nofTx == 1
    ensures var run := [WCheck] + ([WFlush(0, 0)] + ([WFlip] + ([MDone] + [MWipe])));
            && IsRun(t, run) && End(t, run).m.Idle? && End(t, run).sides == t.sides[t.upd := WIPED]
  {
    hide Apply, Enabled, IsRun, End;
    FindsEqual(t);
    var t1 := t.(w := Flush(0));
    FlushesOne(t1);
    var t2 := Apply(t1, WFlush(0, 0));
    FlipsOver(t2);
    var t3 := t2.(w := Fetch, ref := 1 - t2.upd, cfg := t2.m.ports);
    Finishes(t3);
    OneEvent(Apply(t3, MDone), MWipe);
    PutFirst(t3, MDone, [MWipe]);
    PutFirst(t2, WFlip, [MDone] + [MWipe]);
    PutFirst(t1, WFlush(0, 0), [WFlip] + ([MDone] + [MWipe]));
    PutFirst(t, WCheck, [WFlush(0, 0)] + ([WFlip] + ([MDone] + [MWipe])));
  }

  lemma PutFirst(s: State, e: Event, rest: seq<Event>)
    requires Enabled(s, e) && IsRun(Apply(s, e), rest)
    ensures IsRun(s, [e] + rest) && End(s, [e] + rest) == End(Apply(s, e), rest)
  {
    OneEvent(s, e);
    RunConcat(s, [e], rest);
  }

  lemma FlushesOne(s: State)
    requires WellFormed(s) && s.w == Flush(0) && s.sides[s.ref].nofTx == 1
    ensures Enabled(s, WFlush(0, 0))
    ensures var t := Apply(s, WFlush(0, 0));
            WellFormed(t) && t == s.(w := Flush(1), x := t.x, rejected := t.rejected)
  {
  }

  lemma Finishes(s: State)
    requires WellFormed(s) && s.m.Waiting? && s.ref != s.upd
    ensures Enabled(s, MDone) && Enabled(Apply(s, MDone), MWipe)
    ensures var t := Apply(Apply(s, MDone), MWipe);
            t.m.Idle? && t.sides == s.sides[s.upd := WIPED]
  {
  }

  /* ----- Sides left over by a failed update ----- */

  /** An update with one port that fails when the MAC entry of the port cannot be added. */
  function FailFirst(p: TxPort): seq<Event> {
    [MBegin([p], false)] + [MFail(true)]
  }

  lemma FailFirstRun(s: State, p: TxPort)
    requires WellFormed(s) && s.m.Idle? && p.mac != 0 && p.mac != CLS_DUMMY_ADDR
    ensures IsRun(s, FailFirst(p))
    ensures var t := End(s, FailFirst(p));
            && WellFormed(t) && t.m.Idle? && t.ref == s.ref && t.upd == s.upd && t.dirty && t.astray == s.astray
            && t.sides[s.upd].tables == LeftOver(s.sides[s.upd].tables, p, 0)
  {
    hide Apply, Enabled, IsRun, End, LeftOver;
    Begins(s, [p]);
    var s1 := Apply(s, MBegin([p], false));
    Fails(s1);
    OneEvent(s, MBegin([p], false));
    OneEvent(s1, MFail(true));
    RunConcat(s, [MBegin([p], false)], [MFail(true)]);
  }

  /* The same update tried again: references are safe, since the side names only its port, but
     a multicast packet goes to that port twice. */
  lemma {:induction false} RetryPushesTwice(s: State, p: TxPort)
    requires Init(s) && p.mac != 0 && p.mac != CLS_DUMMY_ADDR
    ensures var run := FailFirst(p) + PublishOne(p);
            && IsRun(s, run) && End(s, run).stale && !End(s, run).astray
            && |End(s, run).sides| == 2 && Fanout(End(s, run).sides[s.upd].tables, p.vid) == [0, 0]
  {
    assert s.sides[s.upd].tables == map[];
    hide Apply, Enabled, IsRun, End, FailFirst, PublishOne, Within, Fanout, LeftOver, Register;
    FailFirstRun(s, p);
    PublishOneRun(End(s, FailFirst(p)), p);
    RetryOnLeftOverPushesTwice(p);
    RunConcat(s, FailFirst(p), PublishOne(p));
  }

  /** An update with two ports that fails when the MAC entry of the second cannot be added. */
  function FailSecond(p: TxPort, q: TxPort): seq<Event> {
    [MBegin([p, q], false)] + [MPort] + [MFail(true)]
  }

  lemma FailSecondRun(s: State, p: TxPort, q: TxPort)
    requires WellFormed(s) && s.m.Idle? && q.mac != 0 && q.mac != CLS_DUMMY_ADDR
    ensures IsRun(s, FailSecond(p, q))
    ensures var t := End(s, FailSecond(p, q));
            && WellFormed(t) && t.m.Idle? && t.w == s.w && t.ref == s.ref && t.upd == s.upd && t.x.refs == s.x.refs
            && t.sides == s.sides[s.upd := t.sides[s.upd]]
            && t.sides[s.upd].tables == LeftOver(Register(s.sides[s.upd].tables, p, 0), q, 1)
  {
    hide Apply, Enabled, IsRun, End, LeftOver, Register;
    Begins(s, [p, q]);
    var s1 := Apply(s, MBegin([p, q], false));
    Registers(s1);
    var s2 := Apply(s1, MPort);
    Fails(s2);
    OneEvent(s, MBegin([p, q], false));
    OneEvent(s1, MPort);
    OneEvent(s2, MFail(true));
    RunConcat(s, [MBegin([p, q], false)], [MPort]);
    RunConcat(s, [MBegin([p, q], false)] + [MPort], [MFail(true)]);
  }

  lemma FetchesReady(s: State)
    requires WellFormed(s) && s.w.Fetch? && Ready(s.sides[s.ref])
    ensures Enabled(s, WFetch(false)) && Apply(s, WFetch(false)) == s.(w := Receive(s.ref))
  {
  }

  /* A fan-out that comes to a port that is not there. */
  lemma {:induction false} PushMisses(s: State)
    requires WellFormed(s) && s.w.Fan? && |s.w.dests| >= 2 && s.w.dests[0] == 0 && s.w.dests[1] == 1
    requires s.x.bufs[s.w.side] == [[]]
    ensures exists run :: IsRun(s, run) && End(s, run).x.fault
  {
    var e := WPush(0, 0);
    var t := Apply(s, e);
    assert t.w.Fan? && t.w.dests[0] == 1 && t.w.side == s.w.side && |t.x.bufs[s.w.side]| == 1;
    assert Apply(t, e).x.fault;
    hide Apply, Enabled, IsRun, End;
    OneEvent(t, e);
    PutFirst(s, e, [e]);
  }

  lemma Receives(s: State, k: Packet)
    requires WellFormed(s) && s.w.Receive? && k !in s.x.refs
    ensures Enabled(s, WReceive([k]))
    ensures var t := Apply(s, WReceive([k]));
            t == s.(w := Classify(s.w.side, [k]), x := t.x) && t.x == s.x.(refs := t.x.refs) && WellFormed(t)
  {
    assert forall p :: p in [k] ==> p == k;
  }

  lemma Classifies(s: State, k: Packet)
    requires WellFormed(s) && s.w.Classify? && s.w.rx == [k] && Destinations(s.sides[s.w.side].tables, k.h) != []
    ensures Enabled(s, WClassify)
    ensures var t := Apply(s, WClassify);
            && t == s.(w := Fan(s.w.side, k, Destinations(s.sides[s.w.side].tables, k.h), []), x := t.x)
            && t.x == s.x.(refs := t.x.refs) && WellFormed(t)
  {
    hide Destinations;
    assert s.w.rx[1..] == [];
  }

  /* A packet that a worker about to receive sends to a port that is not there. */
  lemma {:induction false} ReceiveMisses(s: State, k: Packet)
    requires WellFormed(s) && s.w.Receive? && s.x.bufs[s.w.side] == [[]] && k !in s.x.refs
    requires var d := Destinations(s.sides[s.w.side].tables, k.h); |d| >= 2 && d[0] == 0 && d[1] == 1
    ensures exists run :: IsRun(s, run) && End(s, run).x.fault
  {
    hide Destinations, Apply, Enabled, IsRun, End;
    Receives(s, k);
    var t := Apply(s, WReceive([k]));
    Classifies(t, k);
    var u := Apply(t, WClassify);
    PushMisses(u);
    var run :| IsRun(u, run) && End(u, run).x.fault;
    PutFirst(t, WClassify, run);
    PutFirst(s, WReceive([k]), [WClassify] + run);
  }

  /* A worker that is about to take over such a side. */
  lemma {:induction false} TakeOverMisses(s: State, k: Packet)
    requires WellFormed(s) && s.w.Top? && s.m.Waiting? && s.ref == s.upd && s.sides[s.ref].nofTx == 0
    requires Ready(s.sides[1 - s.upd]) && s.x.bufs[1 - s.upd] == [[]] && k !in s.x.refs
    requires var d := Destinations(s.sides[1 - s.upd].tables, k.h); |d| >= 2 && d[0] == 0 && d[1] == 1
    ensures exists run :: IsRun(s, run) && End(s, run).x.fault
  {
    hide Destinations, Apply, Enabled, IsRun, End;
    FindsEqual(s);
    var s1 := s.(w := Flush(0));
    FlipsOver(s1);
    var s2 := s1.(w := Fetch, ref := 1 - s1.upd, cfg := s1.m.ports);
    FetchesReady(s2);
    var s3 := s2.(w := Receive(s2.ref));
    ReceiveMisses(s3, k);
    var run :| IsRun(s3, run) && End(s3, run).x.fault;
    PutFirst(s2, WFetch(false), run);
    PutFirst(s1, WFlip, [WFetch(false)] + run);
    PutFirst(s, WCheck, [WFlip] + ([WFetch(false)] + run));
  }

  /* An update that fails at its second port, then one with the first port alone. */
  lemma LeftOverRun(s: State, p: TxPort, q: TxPort)
    requires Init(s) && p.mac != 0 && q.mac != 0 && q.mac != CLS_DUMMY_ADDR
    ensures IsRun(s, FailSecond(p, q) + PublishOne(p))
    ensures var t := End(s, FailSecond(p, q) + PublishOne(p));
            && WellFormed(t) && t.m.Waiting? && t.w.Top? && t.ref == t.upd && t.sides[t.ref].nofTx == 0
            && t.sides[1 - t.upd] == Side(false, true, Register(LeftOver(Register(map[], p, 0), q, 1), p, 0), 1)
            && t.x.bufs[1 - t.upd] == [[]] && t.x.refs == multiset{}
  {
    hide Apply, Enabled, IsRun, End, FailSecond, PublishOne, LeftOver, Register, Within;
    FailSecondRun(s, p, q);
    var f := End(s, FailSecond(p, q));
    PublishOneRun(f, p);
    RunConcat(s, FailSecond(p, q), PublishOne(p));
  }

  /* Concretely: after an update that failed at its second port, an update with the first port
     alone leads to a push to a TX buffer that is not there. */
  lemma {:induction false} LeftOverMakesPushMiss(s: State, p: TxPort, q: TxPort, k: Packet)
    requires Init(s) && p.mac != 0 && p.mac != CLS_DUMMY_ADDR && q.mac != 0 && q.mac != CLS_DUMMY_ADDR
    requires p.vid == q.vid == GetVid(k.h) && IsMulticast(k.h.dst) && k.h.dst != p.mac % MAC_SPACE
    ensures exists run :: IsRun(s, run) && End(s, run).x.fault
  {
    hide Destinations, Apply, Enabled, IsRun, End, LeftOver, Register;
    LeftOverNamesMissingPort(p, q, k.h);
    LeftOverRun(s, p, q);
    var t := End(s, FailSecond(p, q) + PublishOne(p));
    TakeOverMisses(t, k);
    var run :| IsRun(t, run) && End(t, run).x.fault;
    RunConcat(s, FailSecond(p, q) + PublishOne(p), run);
  }

  /* ----- VLAN operations that reject a packet ----- */

  /* References stay conserved exactly when the VLAN operation rejects no packet: a rejected
     packet is freed twice. */
  lemma {:induction false} TaggedConservesIffNoneRejected(x: Packets, d: nat, i: nat, ok: nat, sent: nat,
                                                          pending: multiset<Packet>)
    requires Conserved(x, pending) && d < 2 && i < |x.bufs[d]| && sent <= ok <= |x.bufs[d][i]|
    ensures Conserved(TransmitTagged(x, d, i, ok, sent), pending) <==> ok == |x.bufs[d][i]|
  {
    var b := x.bufs[d][i];
    var y := Free(x, b[ok..]);
    if ok == |b| {
      assert y == x;
      TransmitConserves(x, d, i, sent, pending);
    } else {
      var p := b[ok];
      assert p in b[ok..];
      TransmitOwned(y, d, i, sent, p);
      assert Owned(y, p) == Owned(x, p);
    }
  }
}
