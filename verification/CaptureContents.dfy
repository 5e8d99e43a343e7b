/** What the files of a capture hold, over whole runs: in every run in which no writer failed,
each file is the file header and the records of packets, and together the files hold exactly
the packets counted as written. */
module CaptureContents {
  import opened CaptureFile
  import opened Capture

  /** The files of a writer, the open one last, and the packets that went into each. */
  function Files(f: File): seq<seq<byte>> {
    f.saved + if f.open then [f.stream] else []
  }

  function Books(f: File): seq<seq<Record>> {
    f.shelf + if f.open then [f.book] else []
  }

  function Bytes(book: seq<Record>): seq<byte> {
    if book == [] then [] else Bytes(book[..|book|-1]) + RecordBytes(book[|book|-1])
  }

  /** A capture file: its header, then one record after the other. */
  function Image(book: seq<Record>): seq<byte> {
    PCAP_HEADER + Bytes(book)
  }

  ghost predicate Kept(f: File) {
    |Files(f)| == |Books(f)| && forall i :: 0 <= i < |Files(f)| ==> Files(f)[i] == Image(Books(f)[i])
  }

  /** How often a packet was recorded. */
  ghost function CountIn(book: seq<Record>, p: Packet): nat {
    if book == [] then 0 else CountIn(book[..|book|-1], p) + if book[|book|-1].packet == p then 1 else 0
  }

  ghost function CountAll(books: seq<seq<Record>>, p: Packet): nat {
    if books == [] then 0 else CountAll(books[..|books|-1], p) + CountIn(books[|books|-1], p)
  }

  ghost function CountBy(ws: seq<Writer>, p: Packet): nat {
    if ws == [] then 0 else CountAll(Books(ws[0].file), p) + CountBy(ws[1..], p)
  }

  // One writer

  lemma ImageMore(book: seq<Record>, r: Record)
    ensures Image(book + [r]) == Image(book) + RecordBytes(r)
    ensures Image([]) == PCAP_HEADER
  {
    hide RecordBytes;
    assert (book + [r])[..|book|] == book;
    assert PCAP_HEADER + (Bytes(book) + RecordBytes(r)) == Image(book) + RecordBytes(r);
    assert PCAP_HEADER + [] == PCAP_HEADER;
  }

  lemma CountMore(books: seq<seq<Record>>, book: seq<Record>, r: Record, p: Packet)
    ensures CountAll(books + [book], p) == CountAll(books, p) + CountIn(book, p)
    ensures CountIn(book + [r], p) == CountIn(book, p) + if r.packet == p then 1 else 0
    ensures CountIn([], p) == 0
  {
    assert (books + [book])[..|books|] == books;
    assert (book + [r])[..|book|] == book;
  }

  /* Opening a file or closing it changes nothing that was kept. */
  lemma OpenKeeps(f: File, c: Calls, p: Packet)
    requires Kept(f) && !f.open
    ensures var g := FileOperation(f, Init, c).0;
            Kept(g) && CountAll(Books(g), p) == CountAll(Books(f), p)
  {
    var g := FileOperation(f, Init, c).0;
    var r := Record(p, 0, 0);
    ImageMore([], r);
    CountMore(f.shelf, [], r, p);
    hide Image, CountAll;
    assert Files(f) == f.saved && Books(f) == f.shelf;
    if g.open {
      assert Files(g) == f.saved + [PCAP_HEADER] && Books(g) == f.shelf + [[]];
    } else {
      assert Files(g) == f.saved && Books(g) == f.shelf;
    }
  }

  lemma CloseKeeps(f: File, c: Calls)
    requires Kept(f)
    ensures var g := FileOperation(f, Close, c).0;
            Kept(g) && Books(g) == Books(f)
  {
    hide Image;
    var g := FileOperation(f, Close, c).0;
    assert Files(g) == Files(f) && Books(g) == Books(f);
  }

  /* One more record in the open file. */
  lemma RecordKeeps(f: File, g: File, r: Record, p: Packet)
    requires Kept(f) && f.open && g.open && g.saved == f.saved && g.shelf == f.shelf
    requires g.stream == f.stream + RecordBytes(r) && g.book == f.book + [r]
    ensures Kept(g) && CountAll(Books(g), p) == CountAll(Books(f), p) + if r.packet == p then 1 else 0
  {
    hide RecordBytes, Image, CountAll, CountIn;
    ImageMore(f.book, r);
    CountMore(f.shelf, f.book, r, p);
    CountMore(f.shelf, f.book + [r], r, p);
    var n := |f.saved|;
    assert Files(f)[n] == f.stream && Books(f)[n] == f.book;
    forall i | 0 <= i < |Files(g)| ensures Files(g)[i] == Image(Books(g)[i]) {
      assert i < n ==> Files(g)[i] == Files(f)[i] && Books(g)[i] == Books(f)[i];
    }
  }

  /* A new file with one record. */
  lemma RotationKeeps(f: File, g: File, r: Record, p: Packet)
    requires Kept(f) && f.open && g.open && g.saved == f.saved + [f.stream] && g.shelf == f.shelf + [f.book]
    requires g.stream == PCAP_HEADER + RecordBytes(r) && g.book == [r]
    ensures Kept(g) && CountAll(Books(g), p) == CountAll(Books(f), p) + if r.packet == p then 1 else 0
  {
    hide RecordBytes, Image, CountAll, CountIn;
    ImageMore([], r);
    assert [] + [r] == [r];
    CountMore(f.shelf + [f.book], [r], r, p);
    CountMore([], [], r, p);
    assert Files(g) == Files(f) + [g.stream] && Books(g) == Books(f) + [g.book];
  }

  lemma PacketKeeps(f: File, limit: nat, pkt: Packet, c: PacketCalls, p: Packet)
    requires Kept(f) && f.open && CompressPacket(f, limit, pkt, c).1
    ensures var g := CompressPacket(f, limit, pkt, c).0;
            Kept(g) && g.open && CountAll(Books(g), p) == CountAll(Books(f), p) + if pkt == p then 1 else 0
  {
    hide CompressPacket, RecordBytes, Kept, CountAll, Books;
    var r, g := Record(pkt, c.sec, c.nsec), CompressPacket(f, limit, pkt, c).0;
    RecordOfPacket(f, limit, pkt, c);
    if f.size > limit {
      RotationKeeps(f, g, r, p);
    } else {
      RecordKeeps(f, g, r, p);
    }
  }

  lemma {:induction false} BurstKeeps(f: File, limit: nat, pkts: seq<Packet>, calls: seq<PacketCalls>, p: Packet)
    requires Kept(f) && f.open && |calls| >= |pkts| && WriteBurst(f, limit, pkts, calls).2
    ensures var g := WriteBurst(f, limit, pkts, calls).0;
            Kept(g) && g.open && CountAll(Books(g), p) == CountAll(Books(f), p) + multiset(pkts)[p]
    decreases |pkts|
  {
    hide Kept, CompressPacket, CountAll;
    if pkts != [] {
      PacketKeeps(f, limit, pkts[0], calls[0], p);
      BurstKeeps(CompressPacket(f, limit, pkts[0], calls[0]).0, limit, pkts[1..], calls[1..], p);
      assert pkts == [pkts[0]] + pkts[1..];
    }
  }

  // All writers

  lemma {:induction false} CountBySet(ws: seq<Writer>, i: nat, w: Writer, p: Packet)
    requires i < |ws|
    ensures CountBy(ws[i := w], p) + CountAll(Books(ws[i].file), p) == CountBy(ws, p) + CountAll(Books(w.file), p)
  {
    if i == 0 {
      assert ws[0 := w][1..] == ws[1..];
    } else {
      assert ws[i := w][1..] == ws[1..][i-1 := w];
      CountBySet(ws[1..], i - 1, w, p);
    }
  }

  ghost predicate AllKept(s: State) {
    && (forall i :: 0 <= i < |s.writers| ==> Kept(s.writers[i].file))
    && forall p :: s.acct.written[p] == CountBy(s.writers, p)
  }

  ghost predicate FilesInv(s: State) {
    NoneFailed(s.writers) ==> AllKept(s)
  }

  /* A writer whose record of packets grows by what is added to the account. */
  lemma SetKeeps(s: State, i: nat, w: Writer, t: State)
    requires AllKept(s) && i < |s.writers| && t.writers == s.writers[i := w] && Kept(w.file)
    requires forall p :: CountAll(Books(w.file), p) + s.acct.written[p]
                      == CountAll(Books(s.writers[i].file), p) + t.acct.written[p]
    ensures AllKept(t)
  {
    hide Kept, CountAll, Books;
    forall p ensures t.acct.written[p] == CountBy(t.writers, p) {
      CountBySet(s.writers, i, w, p);
    }
  }

  /* Closing the file of a writer that goes to another state. */
  lemma CloseStep(s: State, i: nat, thread: Thread, close: Calls, t: State)
    requires AllKept(s) && i < |s.writers| && t.acct == s.acct
    requires var w := s.writers[i];
             t.writers == s.writers[i := w.(thread := thread, file := FileOperation(w.file, Close, close).0)]
    ensures AllKept(t)
  {
    CloseKeeps(s.writers[i].file, close);
    hide FileOperation, Kept, CountAll, Books;
    SetKeeps(s, i, s.writers[i].(thread := thread, file := FileOperation(s.writers[i].file, Close, close).0), t);
  }

  lemma BurstStep(u: Setup, s: State, i: nat, close: Calls, calls: seq<PacketCalls>)
    requires AllKept(s) && Inv(s) && i < |s.writers| && s.writers[i].thread.Running? && s.ring != []
    requires |calls| == MAX_PCAP_BURST && NoneFailed(ProcDequeued(u, s, i, close, calls).writers)
    ensures AllKept(ProcDequeued(u, s, i, close, calls))
  {
    var w, pkts := s.writers[i], s.ring[..Dequeued(s)];
    var t := ProcDequeued(u, s, i, close, calls);
    var (w', k) := WriteOrFail(w, u.fileLimit, pkts, close, calls);
    WriteOrFailInv(w, u.fileLimit, pkts, close, calls);
    assert t.writers[i] == w' && !w'.thread.Failed? && k == |pkts|;
    assert pkts[..k] == pkts;
    BurstKeeps(w.file, u.fileLimit, pkts, calls, pkts[0]);
    forall p ensures CountAll(Books(w'.file), p) == CountAll(Books(w.file), p) + multiset(pkts)[p] {
      BurstKeeps(w.file, u.fileLimit, pkts, calls, p);
    }
    hide Inv, WriteOrFail, Kept, CountAll, Books;
    SetKeeps(s, i, w', t);
  }

  lemma DequeuedStep(u: Setup, s: State, i: nat, close: Calls, calls: seq<PacketCalls>)
    requires AllKept(s) && Inv(s) && i < |s.writers| && s.writers[i].thread.Running?
    requires |calls| == MAX_PCAP_BURST && NoneFailed(ProcDequeued(u, s, i, close, calls).writers)
    ensures AllKept(ProcDequeued(u, s, i, close, calls))
  {
    if s.ring != [] {
      hide ProcDequeued, AllKept, Inv;
      BurstStep(u, s, i, close, calls);
    } else if !s.capturing {
      hide AllKept, Inv, FileOperation;
      CloseStep(s, i, Idle, close, ProcDequeued(u, s, i, close, calls));
    }
  }

  lemma OpenStep(s: State, i: nat, thread: Thread, open: Calls, t: State)
    requires AllKept(s) && i < |s.writers| && !s.writers[i].file.open && t.acct == s.acct
    requires var w := s.writers[i];
             t.writers == s.writers[i := w.(thread := thread, file := FileOperation(w.file, Init, open).0)]
    ensures AllKept(t)
  {
    var f := FileOperation(s.writers[i].file, Init, open).0;
    OpenKeeps(s.writers[i].file, open, Packet(0, 0, []));
    forall p ensures CountAll(Books(f), p) == CountAll(Books(s.writers[i].file), p) {
      OpenKeeps(s.writers[i].file, open, p);
    }
    hide FileOperation, Kept, CountAll, Books;
    SetKeeps(s, i, s.writers[i].(thread := thread, file := f), t);
  }

  lemma ThreadStep(s: State, i: nat, w: Writer, t: State)
    requires AllKept(s) && i < |s.writers| && t.acct == s.acct && w.file == s.writers[i].file
    requires t.writers == s.writers[i := w]
    ensures AllKept(t)
  {
    SetKeeps(s, i, w, t);
  }

  lemma ProcWriteStep(u: Setup, s: State, i: nat, open: Calls, close: Calls, calls: seq<PacketCalls>)
    requires AllKept(s) && Inv(s) && i < |s.writers| && (s.writers[i].thread.Idle? || s.writers[i].thread.Running?)
    requires |calls| == MAX_PCAP_BURST && NoneFailed(ProcWrite(u, s, i, open, close, calls).writers)
    ensures AllKept(ProcWrite(u, s, i, open, close, calls))
  {
    var w := s.writers[i];
    assert WriterInv(w);
    if w.thread.Idle? {
      if s.capturing {
        var (f, ok) := FileOperation(w.file, Init, open);
        FileOperationOwns(w.file, Init, open);
        if ok {
          var s1 := SetWriter(s, i, w.(thread := Running, file := f)).(cnt := s.cnt + 1);
          SetWriterInv(s, i, w.(thread := Running, file := f), s.cnt + 1);
          hide ProcDequeued, AllKept, Inv, FileOperation;
          OpenStep(s, i, Running, open, s1);
          DequeuedStep(u, s1, i, close, calls);
        } else {
          hide AllKept, Inv, FileOperation;
          OpenStep(s, i, Ended, open, ProcWrite(u, s, i, open, close, calls));
        }
      }
    } else {
      hide ProcDequeued, AllKept, Inv;
      DequeuedStep(u, s, i, close, calls);
    }
  }

  lemma FilesStep(u: Setup, s: State, e: Event)
    requires Inv(s) && FilesInv(s) && Enabled(s, e)
    ensures FilesInv(Apply(u, s, e))
  {
    var t := Apply(u, s, e);
    if NoneFailed(t.writers) {
      NoneFailedStep(u, s, e);
      hide AllKept, Inv, NoneFailed, ProcWrite;
      match e
      case Receive(burst) => ReceiverStep(s, t);
      case Request(_) => ReceiverStep(s, t);
      case StopReceiver => ReceiverStep(s, t);
      case StopWriter(i) => ThreadStep(s, i, s.writers[i].(stop := true), t);
      case Write(i, open, close, calls) =>
        if s.writers[i].stop && s.writers[i].thread.Idle? {
          ThreadStep(s, i, s.writers[i].(thread := Ended), t);
        } else {
          ProcWriteStep(u, s, i, open, close, calls);
        }
    }
  }

  lemma ReceiverStep(s: State, t: State)
    requires AllKept(s) && t.writers == s.writers && t.acct.written == s.acct.written
    ensures AllKept(t)
  {
  }

  /* A writer that has failed stays failed. */
  lemma NoneFailedStep(u: Setup, s: State, e: Event)
    requires Enabled(s, e) && NoneFailed(Apply(u, s, e).writers)
    ensures NoneFailed(s.writers)
  {
    hide WriteOrFail, FileOperation;
    var t := Apply(u, s, e);
    forall k | 0 <= k < |s.writers| ensures !s.writers[k].thread.Failed? {
      assert !t.writers[k].thread.Failed?;
    }
  }

  lemma StartKept(n: nat)
    ensures FilesInv(Start(n))
  {
    forall p ensures CountBy(Start(n).writers, p) == 0 {
      NothingBy(Start(n).writers, p);
    }
  }

  lemma {:induction false} NothingBy(ws: seq<Writer>, p: Packet)
    requires forall i :: 0 <= i < |ws| ==> ws[i].file == NO_FILE
    ensures CountBy(ws, p) == 0
  {
    if ws != [] {
      NothingBy(ws[1..], p);
    }
  }

  lemma {:induction false} RunKeeps(u: Setup, s: State, run: seq<Event>)
    requires Inv(s) && FilesInv(s) && IsRun(u, s, run)
    ensures FilesInv(End(u, s, run))
    decreases |run|
  {
    hide Inv, FilesInv;
    if run != [] {
      Step(u, s, run[0]);
      FilesStep(u, s, run[0]);
      RunKeeps(u, Apply(u, s, run[0]), run[1..]);
    }
  }

  /* In every run in which no writer failed: every file of every writer is the file header
     followed by exactly the records of the packets in its book, and a packet is in the books
     of all writers together as often as it is counted as written. */
  lemma FilesHoldWhatWasWritten(u: Setup, n: nat, run: seq<Event>)
    requires IsRun(u, Start(n), run) && NoneFailed(End(u, Start(n), run).writers)
    ensures AllKept(End(u, Start(n), run))
  {
    StartInv(n);
    StartKept(n);
    RunKeeps(u, Start(n), run);
  }

  /* Once every thread is idle and none failed, the ring is empty and every packet taken from
     the port and not dropped at the ring is in the files, as often as it was taken. */
  lemma FilesHoldWhatWasTaken(u: Setup, n: nat, run: seq<Event>)
    requires n >= 1 && IsRun(u, Start(n), run) && AllQuiet(End(u, Start(n), run))
    ensures var t := End(u, Start(n), run);
            && t.ring == [] && (forall i :: 0 <= i < |t.writers| ==> Kept(t.writers[i].file))
            && forall p :: t.acct.taken[p] == t.acct.dropped[p] + CountBy(t.writers, p)
  {
    DrainedWhenIdle(u, n, run);
    FilesHoldWhatWasWritten(u, n, run);
  }
}
