/** What single turns of the capture threads do, and that a capture starts and drains. */
module CaptureProgress {
  import opened CaptureFile
  import opened Capture

  // The ring

  lemma RingStep(u: Setup, s: State, e: Event)
    requires |s.ring| <= u.ringSize && Enabled(s, e)
    ensures |Apply(u, s, e).ring| <= u.ringSize
  {
    hide WriteOrFail, FileOperation;
  }

  /* In every run the ring holds no more than it has room for. */
  lemma {:induction false} RingIsBounded(u: Setup, s: State, run: seq<Event>)
    requires |s.ring| <= u.ringSize && IsRun(u, s, run)
    ensures |End(u, s, run).ring| <= u.ringSize
    decreases |run|
  {
    hide Apply, Enabled;
    if run != [] {
      RingStep(u, s, run[0]);
      RingIsBounded(u, Apply(u, s, run[0]), run[1..]);
    }
  }

  // The receiver

  /** The whole burst was taken from the port: its longest prefix that fits went into the ring,
      behind what was there, and the others were dropped and freed. */
  predicate TookBurst(u: Setup, s: State, t: State, burst: seq<Packet>) {
    var k := |t.ring| - |s.ring|;
    && 0 <= k <= |burst| && t.ring == s.ring + burst[..k] && (k < |burst| ==> |t.ring| == u.ringSize)
    && t.acct == s.acct.(taken := s.acct.taken + multiset(burst),
                         dropped := s.acct.dropped + multiset(burst[k..]),
                         freed := s.acct.freed + multiset(burst[k..]))
  }

  /* A turn of the receiver in any run: the port is read exactly when a capture is requested,
     no stop is pending and every writer is capturing or failed while capturing; and then
     the whole burst is taken. The receiver captures exactly while one is requested. */
  lemma ReceiverTurnIs(u: Setup, n: nat, run: seq<Event>, burst: seq<Packet>)
    requires IsRun(u, Start(n), run) && Enabled(End(u, Start(n), run), Receive(burst))
    ensures var s := End(u, Start(n), run);
            var t := Apply(u, s, Receive(burst));
            var wanted := s.request && !s.receiverStop;
            && (if wanted && AllCounted(s.writers) then TookBurst(u, s, t, burst)
                else t.ring == s.ring && t.acct == s.acct)
            && t.capturing == wanted && t.writers == s.writers
            && t.receiver == if wanted then Running else if s.receiverStop && s.receiver.Idle? then Ended else Idle
  {
    ReachableInv(u, n, run);
    RingIsBounded(u, Start(n), run);
    hide IsRun, End, Start;
    ReceiverTurnFrom(u, End(u, Start(n), run), burst);
  }

  lemma ReceiverTurnFrom(u: Setup, s: State, burst: seq<Packet>)
    requires Inv(s) && |s.ring| <= u.ringSize && Enabled(s, Receive(burst))
    ensures var t := Apply(u, s, Receive(burst));
            var wanted := s.request && !s.receiverStop;
            && (if wanted && AllCounted(s.writers) then TookBurst(u, s, t, burst)
                else t.ring == s.ring && t.acct == s.acct)
            && t.capturing == wanted && t.writers == s.writers
            && t.receiver == if wanted then Running else if s.receiverStop && s.receiver.Idle? then Ended else Idle
  {
    NumCountedAll(s.writers);
    assert ThreadInv(s);
    hide Inv, NumCounted, AllCounted, TookBurst, Enqueue;
    var s1 := if s.receiver.Idle? then s.(receiver := Running, capturing := true, cnt := s.cnt + 1) else s;
    EnqueueTakes(u, s1, burst);
    EnqueueFrame(u, s1, burst);
    SameTook(u, s, s1, Enqueue(u, s1, burst), burst);
  }

  lemma EnqueueFrame(u: Setup, s: State, burst: seq<Packet>)
    ensures var t := Enqueue(u, s, burst); t == s.(ring := t.ring, acct := t.acct)
  {
  }

  lemma SameTook(u: Setup, s: State, s1: State, t: State, burst: seq<Packet>)
    requires s1.ring == s.ring && s1.acct == s.acct
    ensures TookBurst(u, s, t, burst) <==> TookBurst(u, s1, t, burst)
  {
  }

  lemma EnqueueTakes(u: Setup, s: State, burst: seq<Packet>)
    requires |s.ring| <= u.ringSize
    ensures TookBurst(u, s, Enqueue(u, s, burst), burst)
  {
  }

  // The writers

  /** The calls made for a packet all succeed. */
  predicate Works(p: Packet, c: PacketCalls) {
    c.rotate.end && c.rotate.endWrite && Opens(c.rotate) && c.header && |p.segs| <= c.failAt
  }

  lemma CompressWorks(f: File, limit: nat, p: Packet, c: PacketCalls)
    requires f.open && Works(p, c)
    ensures var (g, ok) := CompressPacket(f, limit, p, c); ok && g.open
  {
    CompressPacketIff(f, limit, p, c);
    RecordOfPacket(f, limit, p, c);
  }

  predicate AllWork(pkts: seq<Packet>, calls: seq<PacketCalls>) {
    |pkts| <= |calls| && forall j :: 0 <= j < |pkts| ==> Works(pkts[j], calls[j])
  }

  lemma {:induction false} BurstWorks(f: File, limit: nat, pkts: seq<Packet>, calls: seq<PacketCalls>)
    requires f.open && AllWork(pkts, calls)
    ensures var (g, k, ok) := WriteBurst(f, limit, pkts, calls); ok && g.open && k == |pkts|
    decreases |pkts|
  {
    hide CompressPacket, Works;
    if pkts != [] {
      assert Works(pkts[0], calls[0]);
      CompressWorks(f, limit, pkts[0], calls[0]);
      BurstWorks(CompressPacket(f, limit, pkts[0], calls[0]).0, limit, pkts[1..], calls[1..]);
    }
  }

  /** Writer `i` took the first `n` packets from the ring; `k` of them went into its files, and
      it failed unless that is all of them. */
  predicate TookFromRing(s: State, t: State, i: nat, n: nat, k: nat)
    requires i < |s.writers| == |t.writers|
  {
    && k <= n <= |s.ring| && t.ring == s.ring[n..]
    && t.acct == s.acct.(freed := s.acct.freed + multiset(s.ring[..n]),
                         written := s.acct.written + multiset(s.ring[..k]),
                         lost := s.acct.lost + multiset(s.ring[k..n]))
    && t.writers[i].thread == (if k == n then Running else Failed)
    && t == s.(ring := t.ring, acct := t.acct, writers := s.writers[i := t.writers[i]])
  }

  lemma {:induction false} BurstCounts(f: File, limit: nat, pkts: seq<Packet>, calls: seq<PacketCalls>)
    requires f.open && |calls| >= |pkts| && Owns(f)
    ensures var (g, k, ok) := WriteBurst(f, limit, pkts, calls); ok <==> k == |pkts|
    decreases |pkts|
  {
    hide CompressPacket, Owns;
    if pkts != [] {
      CompressPacketOwns(f, limit, pkts[0], calls[0]);
      var (g, ok) := CompressPacket(f, limit, pkts[0], calls[0]);
      if ok {
        BurstCounts(g, limit, pkts[1..], calls[1..]);
      }
    }
  }

  function Batch(s: State): nat {
    if |s.ring| < 256 then |s.ring| else 256
  }

  /* A turn of a capturing writer with packets in the ring: it takes the first 256, or all there
     are. */
  lemma WriterTakes(u: Setup, s: State, i: nat, open: Calls, close: Calls, calls: seq<PacketCalls>)
    requires Inv(s) && Enabled(s, Write(i, open, close, calls)) && s.writers[i].thread.Running? && s.ring != []
    ensures var t := Apply(u, s, Write(i, open, close, calls));
            && (exists k :: TookFromRing(s, t, i, Batch(s), k))
            && (AllWork(s.ring[..Batch(s)], calls) ==> TookFromRing(s, t, i, Batch(s), Batch(s)))
  {
    var t := Apply(u, s, Write(i, open, close, calls));
    var w, pkts := s.writers[i], s.ring[..Batch(s)];
    assert WriterInv(w);
    hide Inv;
    var k := WriteBurst(w.file, u.fileLimit, pkts, calls).1;
    BurstCounts(w.file, u.fileLimit, pkts, calls);
    if AllWork(pkts, calls) {
      BurstWorks(w.file, u.fileLimit, pkts, calls);
    }
    hide WriteBurst, FileOperation, AllWork;
    assert t == ProcDequeued(u, s, i, close, calls);
    DequeuedTakes(u, s, i, close, calls);
    assert TookFromRing(s, t, i, Batch(s), k);
  }

  lemma DequeuedTakes(u: Setup, s: State, i: nat, close: Calls, calls: seq<PacketCalls>)
    requires i < |s.writers| && |calls| == MAX_PCAP_BURST && s.ring != [] && s.writers[i].thread.Running?
    requires var (_, k, ok) := WriteBurst(s.writers[i].file, u.fileLimit, s.ring[..Batch(s)], calls);
             ok <==> k == Batch(s)
    ensures var k := WriteBurst(s.writers[i].file, u.fileLimit, s.ring[..Batch(s)], calls).1;
            TookFromRing(s, ProcDequeued(u, s, i, close, calls), i, Batch(s), k)
  {
    hide WriteBurst, FileOperation;
    var pkts := s.ring[..Batch(s)];
    var k := WriteBurst(s.writers[i].file, u.fileLimit, pkts, calls).1;
    assert pkts[..k] == s.ring[..k] && pkts[k..] == s.ring[k..Batch(s)];
  }

  /* One with an empty ring: it goes on, or closes its file when the capture is over. */
  lemma WriterRests(u: Setup, s: State, i: nat, open: Calls, close: Calls, calls: seq<PacketCalls>)
    requires Inv(s) && Enabled(s, Write(i, open, close, calls)) && s.writers[i].thread.Running? && s.ring == []
    ensures var t := Apply(u, s, Write(i, open, close, calls));
            if s.capturing then t == s
            else
              && t == s.(cnt := s.cnt - 1, writers := s.writers[i := t.writers[i]])
              && t.writers[i].thread.Idle? && !t.writers[i].file.open
  {
    var w := s.writers[i];
    assert WriterInv(w);
    if !s.capturing {
      CountDownCounts(s, i);
      FileOperationOwns(w.file, Close, close);
      hide Inv, FileOperation;
    }
  }

  /* A turn of an idle writer: while a capture runs it opens its first file, is counted and goes
     on like a capturing one; it ends if the file cannot be opened. */
  lemma IdleTurnIs(u: Setup, s: State, i: nat, open: Calls, close: Calls, calls: seq<PacketCalls>)
    requires Inv(s) && Enabled(s, Write(i, open, close, calls)) && s.writers[i].thread.Idle?
    ensures var t := Apply(u, s, Write(i, open, close, calls));
            if s.writers[i].stop || (s.capturing && !Opens(open)) then
              t == s.(writers := s.writers[i := t.writers[i]]) && t.writers[i].thread.Ended?
            else if s.capturing then
              && t == s.(cnt := s.cnt + 1, writers := s.writers[i := t.writers[i]])
              && t.writers[i].thread.Running? && t.writers[i].file.open
            else t == s
  {
    var w := s.writers[i];
    assert WriterInv(w);
    assert !Counted(w.thread);
    assert s.ring == [];
    if s.capturing && !w.stop {
      FileOperationIff(w.file, Init, open);
      hide Inv, FileOperation;
    }
  }

  // Starting and stopping

  /** Every writer has one turn, from writer `i` on. */
  function TurnOfEach(i: nat, n: nat, open: Calls, close: Calls, calls: seq<PacketCalls>): seq<Event>
    requires i <= n
    decreases n - i
  {
    if i == n then [] else [Write(i, open, close, calls)] + TurnOfEach(i + 1, n, open, close, calls)
  }

  ghost predicate CapturingUpTo(ws: seq<Writer>, i: nat) {
    forall j :: 0 <= j < |ws| ==> if j < i then ws[j].thread.Running? else ws[j].thread.Idle? && !ws[j].stop
  }

  lemma {:induction false} WritersStart(u: Setup, s: State, i: nat, open: Calls, close: Calls, calls: seq<PacketCalls>)
    requires Inv(s) && s.capturing && i <= |s.writers| && CapturingUpTo(s.writers, i)
    requires Opens(open) && |calls| == MAX_PCAP_BURST
    ensures var r := TurnOfEach(i, |s.writers|, open, close, calls);
            && IsRun(u, s, r) && CapturingUpTo(End(u, s, r).writers, |s.writers|)
            && End(u, s, r) == s.(cnt := End(u, s, r).cnt, writers := End(u, s, r).writers)
            && |End(u, s, r).writers| == |s.writers|
    decreases |s.writers| - i
  {
    hide Apply, Inv;
    if i < |s.writers| {
      var e := Write(i, open, close, calls);
      assert Enabled(s, e);
      IdleTurnIs(u, s, i, open, close, calls);
      Step(u, s, e);
      WritersStart(u, Apply(u, s, e), i + 1, open, close, calls);
      RunCons(u, s, e, TurnOfEach(i + 1, |s.writers|, open, close, calls));
    }
  }

  /* A capture starts: from any reachable state with a request and idle writers, one turn of the
     receiver and one of each writer whose file can be opened make every thread capture. */
  lemma {:induction false} CaptureStarts(u: Setup, n: nat, run: seq<Event>, open: Calls, close: Calls,
                                         calls: seq<PacketCalls>)
    requires IsRun(u, Start(n), run) && Opens(open) && |calls| == MAX_PCAP_BURST
    requires var s := End(u, Start(n), run);
             && s.request && !s.receiverStop && (s.receiver.Idle? || s.receiver.Running?)
             && CapturingUpTo(s.writers, 0)
    ensures var s := End(u, Start(n), run);
            var r := [Receive([])] + TurnOfEach(0, |s.writers|, open, close, calls);
            && IsRun(u, s, r) && End(u, s, r).receiver.Running? && CapturingUpTo(End(u, s, r).writers, |s.writers|)
            && |End(u, s, r).writers| == |s.writers|
  {
    var s := End(u, Start(n), run);
    ReachableInv(u, n, run);
    ReceiverTurnIs(u, n, run, []);
    hide Inv, Start;
    Step(u, s, Receive([]));
    var t := Apply(u, s, Receive([]));
    hide Apply, IsRun, End;
    WritersStart(u, t, 0, open, close, calls);
    RunCons(u, s, Receive([]), TurnOfEach(0, |s.writers|, open, close, calls));
  }

  lemma {:induction false} RunConcat(u: Setup, s: State, a: seq<Event>, b: seq<Event>)
    requires IsRun(u, s, a) && IsRun(u, End(u, s, a), b)
    ensures IsRun(u, s, a + b) && End(u, s, a + b) == End(u, End(u, s, a), b)
    decreases |a|
  {
    hide Apply, Enabled;
    if a == [] {
      assert a + b == b;
    } else {
      assert (a + b)[1..] == a[1..] + b;
      RunConcat(u, Apply(u, s, a[0]), a[1..], b);
    }
  }

  const GOOD := Calls(true, true, 0, true, true, true, 0, true, true)

  /** Calls that work for the next packets of the ring. */
  function GoodCalls(s: State): (c: seq<PacketCalls>)
    ensures |c| == MAX_PCAP_BURST && AllWork(s.ring[..Batch(s)], c)
  {
    seq(MAX_PCAP_BURST, j requires 0 <= j =>
      PacketCalls(GOOD, GOOD, 0, 0, true, if j < |s.ring| then |s.ring[j].segs| else 0))
  }

  function GoodTurn(s: State, i: nat): Event {
    Write(i, GOOD, GOOD, GoodCalls(s))
  }

  /** `t` differs from `s` in the ring, what became of packets, and writer `i`. */
  ghost predicate OnlyWriter(s: State, t: State, i: nat) {
    && |t.writers| == |s.writers| && i < |s.writers| && t.writers == s.writers[i := t.writers[i]]
    && !t.capturing && t.receiver == s.receiver
  }

  lemma DrainTurn(u: Setup, s: State, i: nat)
    requires Inv(s) && !s.capturing && i < |s.writers| && s.writers[i].thread.Running?
    ensures Enabled(s, GoodTurn(s, i))
    ensures var t := Apply(u, s, GoodTurn(s, i));
            && OnlyWriter(s, t, i)
            && if s.ring == [] then t.ring == [] && t.writers[i].thread.Idle?
               else |t.ring| < |s.ring| && t.writers[i].thread.Running?
  {
    assert Enabled(s, GoodTurn(s, i));
    hide Inv, Apply, GoodCalls;
    if s.ring == [] {
      WriterRests(u, s, i, GOOD, GOOD, GoodCalls(s));
    } else {
      WriterTakes(u, s, i, GOOD, GOOD, GoodCalls(s));
    }
  }

  /* A capturing writer empties the ring and goes idle once the capture is over. */
  lemma {:induction false} WriterDrains(u: Setup, s: State, i: nat) returns (r: seq<Event>)
    requires Inv(s) && !s.capturing && i < |s.writers| && s.writers[i].thread.Running?
    ensures IsRun(u, s, r)
    ensures var t := End(u, s, r); OnlyWriter(s, t, i) && t.ring == [] && t.writers[i].thread.Idle?
    decreases |s.ring|
  {
    hide Inv, Apply, Enabled, GoodTurn;
    var e := GoodTurn(s, i);
    DrainTurn(u, s, i);
    Step(u, s, e);
    var rest := [];
    assert IsRun(u, Apply(u, s, e), rest) && End(u, Apply(u, s, e), rest) == Apply(u, s, e);
    if s.ring != [] {
      rest := WriterDrains(u, Apply(u, s, e), i);
    }
    hide IsRun, End;
    r := [e] + rest;
    RunCons(u, s, e, rest);
  }

  ghost predicate QuietUpTo(s: State, i: nat) {
    && !s.capturing && !s.receiver.Running?
    && forall j :: 0 <= j < |s.writers| ==>
         if j < i then !Counted(s.writers[j].thread) else !s.writers[j].thread.Failed?
  }

  lemma {:induction false} WritersDrain(u: Setup, s: State, i: nat) returns (r: seq<Event>)
    requires Inv(s) && i <= |s.writers| && QuietUpTo(s, i)
    ensures IsRun(u, s, r) && AllQuiet(End(u, s, r))
    decreases |s.writers| - i
  {
    r := [];
    if i < |s.writers| {
      hide Inv;
      if s.writers[i].thread.Running? {
        var a := WriterDrains(u, s, i);
        RunInv(u, s, a);
        hide IsRun, End;
        var b := WritersDrain(u, End(u, s, a), i + 1);
        RunConcat(u, s, a, b);
        r := a + b;
      } else {
        r := WritersDrain(u, s, i + 1);
      }
    }
  }

  /* A capture can be stopped: from any reachable state in which no writer failed, the request
     withdrawn and the calls working, turns of the threads lead to a state in which all are quiet. */
  lemma {:induction false} CaptureStops(u: Setup, n: nat, run: seq<Event>)
    requires IsRun(u, Start(n), run) && NoneFailed(End(u, Start(n), run).writers)
    ensures exists r :: IsRun(u, End(u, Start(n), run), r) && AllQuiet(End(u, End(u, Start(n), run), r))
  {
    var s := End(u, Start(n), run);
    ReachableInv(u, n, run);
    hide Inv, Start;
    if s.receiver.Running? {
      var s1 := Apply(u, s, Request(false));
      Step(u, s, Request(false));
      Step(u, s1, Receive([]));
      var s2 := Apply(u, s1, Receive([]));
      assert QuietUpTo(s2, 0);
      var r := WritersDrain(u, s2, 0);
      hide Apply, IsRun, End;
      RunCons(u, s1, Receive([]), r);
      RunCons(u, s, Request(false), [Receive([])] + r);
    } else {
      NotCapturing(s);
      var r := WritersDrain(u, s, 0);
    }
  }

  lemma NotCapturing(s: State)
    requires Inv(s) && !s.receiver.Running?
    ensures !s.capturing
  {
  }
}
