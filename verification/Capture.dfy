/** The capture pipeline: one receiver thread, any number of writer threads, a shared ring.

One event is one turn of the loop of `slave_main`, that is, one call of
`pcap_proc_receive` or `pcap_proc_write` together with the stop check before it,
or one command of the controller. A run is any sequence of events.
 */
module Capture {
  import opened CaptureFile

  const MAX_PCAP_BURST := 256

  /** A thread is idle, capturing, ended by a failure while capturing, or ended otherwise. */
  datatype Thread = Idle | Running | Failed | Ended

  /** A writer thread, the stop request to it, and its file. */
  datatype Writer = Writer(thread: Thread, stop: bool, file: File)

  /** What became of the packets taken from the port: those freed because the ring was full,
      those written to a file, those a failing writer had dequeued and did not write, and
      those freed. */
  datatype Account = Account(taken: multiset<Packet>, dropped: multiset<Packet>,
                             written: multiset<Packet>, lost: multiset<Packet>, freed: multiset<Packet>)

  /** `cnt` is `start_up_cnt`. */
  datatype State = State(
    request: bool, capturing: bool, cnt: int, receiver: Thread, receiverStop: bool,
    writers: seq<Writer>, ring: seq<Packet>, acct: Account)

  /** Sizes fixed at start-up: room in the ring and the limit of a file. */
  datatype Setup = Setup(ringSize: nat, fileLimit: nat)

  datatype Event =
    | Request(run: bool)
    | StopReceiver
    | StopWriter(i: nat)
    | Receive(burst: seq<Packet>)
    | Write(i: nat, open: Calls, close: Calls, calls: seq<PacketCalls>)

  /* ----- Receiver ----- */

  /** `if (start_up_cnt != 0) start_up_cnt -= 1` */
  function CountDown(cnt: int): int {
    if cnt != 0 then cnt - 1 else cnt
  }

  /** A burst is taken from the port and only its first `n` packets fit into the ring. */
  function Take(a: Account, burst: seq<Packet>, n: nat): Account
    requires n <= |burst|
  {
    a.(taken := a.taken + multiset(burst),
       dropped := a.dropped + multiset(burst[n..]), freed := a.freed + multiset(burst[n..]))
  }

  /** Packets are dequeued and freed, and the first `k` of them were written. */
  function Put(a: Account, pkts: seq<Packet>, k: nat): Account
    requires k <= |pkts|
  {
    a.(freed := a.freed + multiset(pkts),
       written := a.written + multiset(pkts[..k]), lost := a.lost + multiset(pkts[k..]))
  }

  /** Packets taken from the port go to the ring, as far as there is room. */
  function Enqueue(u: Setup, s: State, burst: seq<Packet>): State {
    var room := if |s.ring| < u.ringSize then u.ringSize - |s.ring| else 0;
    var n := Min(room, |burst|);
    s.(ring := s.ring + burst[..n], acct := Take(s.acct, burst, n))
  }

  function ProcReceive(u: Setup, s: State, burst: seq<Packet>): State {
    if !s.request then
      if s.receiver.Running?
      then s.(receiver := Idle, capturing := false, cnt := CountDown(s.cnt))
      else s
    else
      var s := if s.receiver.Idle? then s.(receiver := Running, capturing := true, cnt := s.cnt + 1) else s;
      if 1 + |s.writers| > s.cnt then s else Enqueue(u, s, burst)
  }

  /** One turn of the receiver's loop. */
  function ReceiverTurn(u: Setup, s: State, burst: seq<Packet>): State {
    if s.receiverStop && s.receiver.Idle? then s.(receiver := Ended)
    else ProcReceive(u, if s.receiverStop then s.(request := false) else s, burst)
  }

  /* ----- Writers ----- */

  /** Compresses packets until one fails; also tells how many were put into a file. */
  function WriteBurst(f: File, limit: nat, pkts: seq<Packet>, calls: seq<PacketCalls>): (r: (File, nat, bool))
    requires |calls| >= |pkts|
    ensures r.1 <= |pkts|
    decreases |pkts|
  {
    if pkts == [] then (f, 0, true)
    else
      var (g, ok) := CompressPacket(f, limit, pkts[0], calls[0]);
      if !ok then (g, 0, false)
      else
        var (h, n, ok) := WriteBurst(g, limit, pkts[1..], calls[1..]);
        (h, if f.open then n + 1 else n, ok)
  }

  function Dequeued(s: State): nat {
    Min(MAX_PCAP_BURST, |s.ring|)
  }

  predicate Enabled(s: State, e: Event) {
    match e
    case StopWriter(i) => i < |s.writers|
    case Receive(burst) => (s.receiver.Idle? || s.receiver.Running?) && |burst| <= MAX_PCAP_BURST
    case Write(i, _, _, calls) =>
      && i < |s.writers| && (s.writers[i].thread.Idle? || s.writers[i].thread.Running?)
      && |calls| == MAX_PCAP_BURST
    case _ => true
  }

  function SetWriter(s: State, i: nat, w: Writer): State
    requires i < |s.writers|
  {
    s.(writers := s.writers[i := w])
  }

  /** A writer after a burst, and how many packets it put into files; it ends when one fails. */
  function WriteOrFail(w: Writer, limit: nat, pkts: seq<Packet>, close: Calls, calls: seq<PacketCalls>)
    : (r: (Writer, nat))
    requires |calls| >= |pkts|
    ensures r.1 <= |pkts|
  {
    var (f, k, ok) := WriteBurst(w.file, limit, pkts, calls);
    (if ok then w.(file := f) else w.(thread := Failed, file := FileOperation(f, Close, close).0), k)
  }

  /** The part of `pcap_proc_write` after start-up. */
  function ProcDequeued(u: Setup, s: State, i: nat, close: Calls, calls: seq<PacketCalls>): (t: State)
    requires i < |s.writers| && |calls| == MAX_PCAP_BURST
    ensures |t.writers| == |s.writers|
  {
    var w := s.writers[i];
    var n := Dequeued(s);
    if n == 0 then
      if s.capturing then s
      else SetWriter(s, i, w.(thread := Idle, file := FileOperation(w.file, Close, close).0)).(cnt := CountDown(s.cnt))
    else
      var pkts := s.ring[..n];
      var (w', k) := WriteOrFail(w, u.fileLimit, pkts, close, calls);
      SetWriter(s, i, w').(ring := s.ring[n..], acct := Put(s.acct, pkts, k))
  }

  function ProcWrite(u: Setup, s: State, i: nat, open: Calls, close: Calls, calls: seq<PacketCalls>): (t: State)
    requires i < |s.writers| && |calls| == MAX_PCAP_BURST
    ensures |t.writers| == |s.writers|
  {
    var w := s.writers[i];
    if w.thread.Idle? && !s.capturing then s
    else if w.thread.Idle? then
      var (f, ok) := FileOperation(w.file, Init, open);
      if !ok then SetWriter(s, i, w.(thread := Ended, file := f))
      else
        ProcDequeued(u, SetWriter(s, i, w.(thread := Running, file := f)).(cnt := s.cnt + 1), i, close, calls)
    else ProcDequeued(u, s, i, close, calls)
  }

  /** One turn of a writer's loop. */
  function WriterTurn(u: Setup, s: State, i: nat, open: Calls, close: Calls, calls: seq<PacketCalls>): (t: State)
    requires i < |s.writers| && |calls| == MAX_PCAP_BURST
    ensures |t.writers| == |s.writers|
  {
    if s.writers[i].stop && s.writers[i].thread.Idle? then SetWriter(s, i, s.writers[i].(thread := Ended))
    else ProcWrite(u, s, i, open, close, calls)
  }

  function Apply(u: Setup, s: State, e: Event): (t: State)
    requires Enabled(s, e)
    ensures |t.writers| == |s.writers|
  {
    match e
    case Request(run) => s.(request := run)
    case StopReceiver => s.(receiverStop := true)
    case StopWriter(i) => SetWriter(s, i, s.writers[i].(stop := true))
    case Receive(burst) => ReceiverTurn(u, s, burst)
    case Write(i, open, close, calls) => WriterTurn(u, s, i, open, close, calls)
  }

  /* ----- Runs ----- */

  predicate IsRun(u: Setup, s: State, run: seq<Event>)
    decreases |run|
  {
    run == [] || (Enabled(s, run[0]) && IsRun(u, Apply(u, s, run[0]), run[1..]))
  }

  function End(u: Setup, s: State, run: seq<Event>): State
    requires IsRun(u, s, run)
    decreases |run|
  {
    if run == [] then s else End(u, Apply(u, s, run[0]), run[1..])
  }

  function Start(n: nat): State {
    var none: multiset<Packet> := multiset{};
    State(false, false, 0, Idle, false, seq(n, _ => Writer(Idle, false, NO_FILE)), [],
          Account(none, none, none, none, none))
  }

  /* ----- Counting threads ----- */

  /** Threads `start_up_cnt` stands for: capturing, or ended by a failure while capturing. */
  predicate Counted(t: Thread) {
    t.Running? || t.Failed?
  }

  ghost function NumCounted(ws: seq<Writer>): nat {
    if ws == [] then 0 else (if Counted(ws[0].thread) then 1 else 0) + NumCounted(ws[1..])
  }

  ghost predicate AllCounted(ws: seq<Writer>) {
    forall i :: 0 <= i < |ws| ==> Counted(ws[i].thread)
  }

  lemma {:induction false} NumCountedSet(ws: seq<Writer>, i: nat, w: Writer)
    requires i < |ws|
    ensures NumCounted(ws[i := w]) + (if Counted(ws[i].thread) then 1 else 0)
         == NumCounted(ws) + (if Counted(w.thread) then 1 else 0)
  {
    if i == 0 {
      assert ws[0 := w][1..] == ws[1..];
    } else {
      assert ws[i := w][1..] == ws[1..][i-1 := w];
      NumCountedSet(ws[1..], i-1, w);
    }
  }

  lemma {:induction false} NumCountedAll(ws: seq<Writer>)
    ensures NumCounted(ws) <= |ws| && (NumCounted(ws) == |ws| <==> AllCounted(ws))
  {
    if ws != [] {
      NumCountedAll(ws[1..]);
    }
  }

  /* ----- Invariant ----- */

  /** A writer owns an open file exactly while it is capturing. */
  ghost predicate WriterInv(w: Writer) {
    Owns(w.file) && (w.file.open <==> w.thread.Running?)
  }

  ghost predicate Accounted(s: State) {
    var a := s.acct;
    && a.taken == multiset(s.ring) + a.dropped + a.written + a.lost
    && a.freed == a.dropped + a.written + a.lost
  }

  ghost predicate NoneFailed(ws: seq<Writer>) {
    forall i :: 0 <= i < |ws| ==> !ws[i].thread.Failed?
  }

  ghost predicate ThreadInv(s: State) {
    && !s.receiver.Failed? && (s.capturing <==> s.receiver.Running?)
    && s.cnt == NumCounted(s.writers) + (if s.receiver.Running? then 1 else 0)
    && (s.ring != [] ==> AllCounted(s.writers))
  }

  ghost predicate Inv(s: State) {
    && ThreadInv(s) && Accounted(s)
    && (forall i :: 0 <= i < |s.writers| ==> WriterInv(s.writers[i]))
    && (NoneFailed(s.writers) ==> s.acct.lost == multiset{})
  }

  lemma StartInv(n: nat)
    ensures Inv(Start(n))
  {
    NumCountedNone(Start(n).writers);
    assert WriterInv(Writer(Idle, false, NO_FILE));
  }

  lemma {:induction false} NumCountedNone(ws: seq<Writer>)
    requires forall i :: 0 <= i < |ws| ==> ws[i].thread.Idle?
    ensures NumCounted(ws) == 0
  {
    if ws != [] {
      NumCountedNone(ws[1..]);
    }
  }

  lemma EnqueueAccounted(u: Setup, s: State, burst: seq<Packet>)
    requires Accounted(s)
    ensures Accounted(Enqueue(u, s, burst))
  {
    var n := |Enqueue(u, s, burst).ring| - |s.ring|;
    assert burst == burst[..n] + burst[n..];
  }

  /* The receiver reads from the port only when every writer is capturing or has failed. */
  lemma EnqueueInv(u: Setup, s: State, burst: seq<Packet>)
    requires Inv(s) && 1 + |s.writers| <= s.cnt
    ensures AllCounted(s.writers) && Inv(Enqueue(u, s, burst))
  {
    NumCountedAll(s.writers);
    EnqueueAccounted(u, s, burst);
    hide Accounted;
  }

  lemma ProcReceiveInv(u: Setup, s: State, burst: seq<Packet>)
    requires Inv(s) && (s.receiver.Idle? || s.receiver.Running?)
    ensures Inv(ProcReceive(u, s, burst))
  {
    hide Enqueue, WriterInv, NoneFailed, NumCounted, AllCounted;
    if s.request {
      var s1 := if s.receiver.Idle? then s.(receiver := Running, capturing := true, cnt := s.cnt + 1) else s;
      if 1 + |s1.writers| <= s1.cnt {
        EnqueueInv(u, s1, burst);
      }
    }
  }

  lemma ReceiveInv(u: Setup, s: State, burst: seq<Packet>)
    requires Inv(s) && Enabled(s, Receive(burst))
    ensures Inv(Apply(u, s, Receive(burst)))
  {
    hide ProcReceive, WriterInv, NoneFailed, NumCounted, AllCounted;
    if !(s.receiverStop && s.receiver.Idle?) {
      ProcReceiveInv(u, if s.receiverStop then s.(request := false) else s, burst);
    }
  }

  /* A burst written by a capturing writer: all of it is in files, or the writer has no file. */
  lemma {:induction false} WriteBurstInv(f: File, limit: nat, pkts: seq<Packet>, calls: seq<PacketCalls>)
    requires Owns(f) && f.open && |calls| >= |pkts|
    ensures var (g, n, ok) := WriteBurst(f, limit, pkts, calls);
            Owns(g) && g.open == ok && (ok ==> n == |pkts|)
    decreases |pkts|
  {
    if pkts != [] {
      CompressPacketOwns(f, limit, pkts[0], calls[0]);
      var (g, ok) := CompressPacket(f, limit, pkts[0], calls[0]);
      if ok {
        WriteBurstInv(g, limit, pkts[1..], calls[1..]);
      }
    }
  }

  lemma SetWriterInv(s: State, i: nat, w: Writer, cnt: int)
    requires Inv(s) && i < |s.writers| && WriterInv(w) && (s.writers[i].thread.Failed? ==> w.thread.Failed?)
    requires cnt == s.cnt + (if Counted(w.thread) then 1 else 0) - (if Counted(s.writers[i].thread) then 1 else 0)
    requires s.ring != [] ==> Counted(w.thread)
    ensures Inv(SetWriter(s, i, w).(cnt := cnt))
  {
    NumCountedSet(s.writers, i, w);
    var t := SetWriter(s, i, w).(cnt := cnt);
    if NoneFailed(t.writers) {
      assert NoneFailed(s.writers) by {
        forall k | 0 <= k < |s.writers| ensures !s.writers[k].thread.Failed? {
          assert !t.writers[k].thread.Failed?;
        }
      }
    }
  }

  lemma CountDownCounts(s: State, i: nat)
    requires ThreadInv(s) && i < |s.writers| && s.writers[i].thread.Running?
    ensures CountDown(s.cnt) == s.cnt - 1
  {
    NumCountedSet(s.writers, i, s.writers[i].(thread := Idle));
  }

  lemma IdleInv(u: Setup, s: State, i: nat, close: Calls, calls: seq<PacketCalls>)
    requires Inv(s) && i < |s.writers| && s.writers[i].thread.Running? && s.ring == [] && |calls| == MAX_PCAP_BURST
    ensures Inv(ProcDequeued(u, s, i, close, calls))
  {
    var w := s.writers[i];
    CountDownCounts(s, i);
    FileOperationOwns(w.file, Close, close);
    SetWriterInv(s, i, w.(thread := Idle, file := FileOperation(w.file, Close, close).0), s.cnt - 1);
  }

  lemma BurstAccounted(s: State, n: nat, k: nat)
    requires Accounted(s) && k <= n <= |s.ring|
    ensures Accounted(s.(ring := s.ring[n..], acct := Put(s.acct, s.ring[..n], k)))
  {
    var pkts := s.ring[..n];
    assert s.ring == pkts + s.ring[n..];
    assert pkts == pkts[..k] + pkts[k..];
  }

  lemma BurstInv(s: State, n: nat, k: nat)
    requires Inv(s) && k <= n <= |s.ring| && (NoneFailed(s.writers) ==> k == n)
    ensures Inv(s.(ring := s.ring[n..], acct := Put(s.acct, s.ring[..n], k)))
  {
    BurstAccounted(s, n, k);
    hide Accounted, WriterInv, NoneFailed, NumCounted;
  }

  lemma WriteOrFailInv(w: Writer, limit: nat, pkts: seq<Packet>, close: Calls, calls: seq<PacketCalls>)
    requires WriterInv(w) && w.thread.Running? && |calls| >= |pkts|
    ensures var (w', k) := WriteOrFail(w, limit, pkts, close, calls);
            WriterInv(w') && Counted(w'.thread) && (!w'.thread.Failed? ==> k == |pkts|)
  {
    WriteBurstInv(w.file, limit, pkts, calls);
    hide WriteBurst;
    var (f, k, ok) := WriteBurst(w.file, limit, pkts, calls);
    if !ok {
      FileOperationOwns(f, Close, close);
    }
  }

  lemma DequeuedInv(u: Setup, s: State, i: nat, close: Calls, calls: seq<PacketCalls>)
    requires Inv(s) && i < |s.writers| && s.writers[i].thread.Running? && s.ring != [] && |calls| == MAX_PCAP_BURST
    ensures Inv(ProcDequeued(u, s, i, close, calls))
  {
    var w, n := s.writers[i], Dequeued(s);
    WriteOrFailInv(w, u.fileLimit, s.ring[..n], close, calls);
    hide WriteOrFail;
    var (w', k) := WriteOrFail(w, u.fileLimit, s.ring[..n], close, calls);
    SetWriterInv(s, i, w', s.cnt);
    assert SetWriter(s, i, w').writers[i] == w';
    hide Inv;
    BurstInv(SetWriter(s, i, w').(cnt := s.cnt), n, k);
  }

  lemma ProcWriteInv(u: Setup, s: State, i: nat, open: Calls, close: Calls, calls: seq<PacketCalls>)
    requires Inv(s) && i < |s.writers| && (s.writers[i].thread.Idle? || s.writers[i].thread.Running?)
    requires |calls| == MAX_PCAP_BURST
    ensures Inv(ProcWrite(u, s, i, open, close, calls))
  {
    var w, s1 := s.writers[i], s;
    if w.thread.Idle? {
      if !s.capturing {
        return;
      }
      FileOperationOwns(w.file, Init, open);
      var (f, ok) := FileOperation(w.file, Init, open);
      if !ok {
        SetWriterInv(s, i, w.(thread := Ended, file := f), s.cnt);
        return;
      }
      SetWriterInv(s, i, w.(thread := Running, file := f), s.cnt + 1);
      s1 := SetWriter(s, i, w.(thread := Running, file := f)).(cnt := s.cnt + 1);
    }
    if s1.ring == [] {
      IdleInv(u, s1, i, close, calls);
    } else {
      DequeuedInv(u, s1, i, close, calls);
    }
  }

  lemma WriteInv(u: Setup, s: State, e: Event)
    requires Inv(s) && e.Write? && Enabled(s, e)
    ensures Inv(Apply(u, s, e))
  {
    hide ProcWrite;
    var w := s.writers[e.i];
    if w.stop && w.thread.Idle? {
      SetWriterInv(s, e.i, w.(thread := Ended), s.cnt);
    } else {
      ProcWriteInv(u, s, e.i, e.open, e.close, e.calls);
    }
  }

  lemma Step(u: Setup, s: State, e: Event)
    requires Inv(s) && Enabled(s, e)
    ensures Inv(Apply(u, s, e))
  {
    match e
    case Receive(burst) => ReceiveInv(u, s, burst);
    case Write(_, _, _, _) => WriteInv(u, s, e);
    case StopWriter(i) => SetWriterInv(s, i, s.writers[i].(stop := true), s.cnt);
    case _ =>
  }

  lemma {:induction false} RunInv(u: Setup, s: State, run: seq<Event>)
    requires Inv(s) && IsRun(u, s, run)
    ensures Inv(End(u, s, run))
    decreases |run|
  {
    hide Inv;
    if run != [] {
      Step(u, s, run[0]);
      RunInv(u, Apply(u, s, run[0]), run[1..]);
    }
  }

  /* ----- Whole runs ----- */

  lemma ReachableInv(u: Setup, n: nat, run: seq<Event>)
    requires IsRun(u, Start(n), run)
    ensures Inv(End(u, Start(n), run))
  {
    StartInv(n);
    RunInv(u, Start(n), run);
  }

  /* The start-up count is the number of capturing threads plus the writers that failed
     while capturing, so the guard of a decrement never suppresses it. */
  lemma StartUpCount(u: Setup, n: nat, run: seq<Event>)
    requires IsRun(u, Start(n), run)
    ensures var t := End(u, Start(n), run);
            && t.cnt == NumCounted(t.writers) + (if t.receiver.Running? then 1 else 0)
            && (t.receiver.Running? ==> CountDown(t.cnt) == t.cnt - 1)
            && forall i :: 0 <= i < |t.writers| && t.writers[i].thread.Running? ==> CountDown(t.cnt) == t.cnt - 1
  {
    ReachableInv(u, n, run);
    var t := End(u, Start(n), run);
    hide IsRun, End, Start;
    forall i | 0 <= i < |t.writers| && t.writers[i].thread.Running? ensures CountDown(t.cnt) == t.cnt - 1 {
      CountDownCounts(t, i);
    }
  }

  /* A turn of the receiver takes packets from the port only if every writer is capturing or
     failed while capturing. */
  lemma PortIsReadWhenAllStarted(u: Setup, n: nat, run: seq<Event>, burst: seq<Packet>)
    requires IsRun(u, Start(n), run) && Enabled(End(u, Start(n), run), Receive(burst))
    ensures var t := End(u, Start(n), run);
            Apply(u, t, Receive(burst)).acct.taken != t.acct.taken ==> AllCounted(t.writers)
  {
    ReachableInv(u, n, run);
    NumCountedAll(End(u, Start(n), run).writers);
    hide IsRun, End, Start, Accounted;
  }

  /* A writer owns an open file, and a live buffer, exactly while it is capturing. */
  lemma WriterOwnsFileWhileCapturing(u: Setup, n: nat, run: seq<Event>, i: nat)
    requires IsRun(u, Start(n), run) && i < |End(u, Start(n), run).writers|
    ensures WriterInv(End(u, Start(n), run).writers[i])
  {
    ReachableInv(u, n, run);
    hide IsRun, End, Start;
  }

  /* Packets in the ring find every writer capturing, or failed while capturing. */
  lemma RingHasWriters(u: Setup, n: nat, run: seq<Event>)
    requires IsRun(u, Start(n), run) && End(u, Start(n), run).ring != []
    ensures AllCounted(End(u, Start(n), run).writers)
  {
    ReachableInv(u, n, run);
    hide IsRun, End, Start;
  }

  lemma {:induction false} WritersStay(u: Setup, s: State, run: seq<Event>)
    requires IsRun(u, s, run)
    ensures |End(u, s, run).writers| == |s.writers|
    decreases |run|
  {
    hide Apply;
    if run != [] {
      WritersStay(u, Apply(u, s, run[0]), run[1..]);
    }
  }

  ghost predicate AllQuiet(s: State) {
    !s.receiver.Running? && forall i :: 0 <= i < |s.writers| ==> !Counted(s.writers[i].thread)
  }

  /* Once every thread is idle and no writer failed, every packet taken from the port and not
     dropped at the ring was written to a file, once, and every packet taken was freed, once. */
  lemma DrainedWhenIdle(u: Setup, n: nat, run: seq<Event>)
    requires n >= 1 && IsRun(u, Start(n), run) && AllQuiet(End(u, Start(n), run))
    ensures var t := End(u, Start(n), run);
            t.ring == [] && t.acct.taken == t.acct.dropped + t.acct.written && t.acct.freed == t.acct.taken
  {
    ReachableInv(u, n, run);
    WritersStay(u, Start(n), run);
    var t := End(u, Start(n), run);
    hide IsRun, End;
    assert !Counted(t.writers[0].thread);
  }

  lemma RunCons(u: Setup, s: State, e: Event, rest: seq<Event>)
    requires Enabled(s, e) && IsRun(u, Apply(u, s, e), rest)
    ensures IsRun(u, s, [e] + rest) && End(u, s, [e] + rest) == End(u, Apply(u, s, e), rest)
  {
    assert ([e] + rest)[1..] == rest;
  }

  /* With no writer at all the claim is false: the packets stay in the ring. */
  lemma NotDrainedWithoutWriters(p: Packet)
    ensures exists run :: && IsRun(Setup(1, 0), Start(0), run)
                          && AllQuiet(End(Setup(1, 0), Start(0), run))
                          && End(Setup(1, 0), Start(0), run).ring == [p]
  {
    var u := Setup(1, 0);
    var s1 := Apply(u, Start(0), Request(true));
    var s2 := Apply(u, s1, Receive([p]));
    assert s2 == s1.(receiver := Running, capturing := true, cnt := 1, ring := [p], acct := s2.acct);
    var s3 := Apply(u, s2, Request(false));
    var s4 := Apply(u, s3, Receive([]));
    assert s4.ring == [p] && AllQuiet(s4);
    assert IsRun(u, s4, []) && End(u, s4, []) == s4;
    hide Apply, IsRun, End, AllQuiet;
    RunCons(u, s3, Receive([]), []);
    RunCons(u, s2, Request(false), [Receive([])] + []);
    RunCons(u, s1, Receive([p]), [Request(false)] + ([Receive([])] + []));
    RunCons(u, Start(0), Request(true), [Receive([p])] + ([Request(false)] + ([Receive([])] + [])));
  }
}
