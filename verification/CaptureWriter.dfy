/** The code of a capture writer, updating its management record in place. */
module CaptureWriter {
  import opened CaptureFile
  import Capture

  /** File part of `struct pcap_mng_info`; `allocs` stands for the next address `malloc` gives.
      The ghost fields are what has become of buffers and files. */
  class WriterInfo {
    var open: bool
    var outbuff: nat
    var size: nat
    var no: nat
    var allocs: nat
    ghost var freed: multiset<nat>
    ghost var stream: seq<byte>
    ghost var saved: seq<seq<byte>>
    ghost var book: seq<Record>
    ghost var shelf: seq<seq<Record>>

    constructor ()
      ensures View() == NO_FILE
    {
      open, outbuff, size, no, allocs := false, 0, 0, 0, 0;
      freed, stream, saved, book, shelf := multiset{}, [], [], [], [];
    }

    ghost function View(): File
      reads this
    {
      File(open, outbuff, size, no, stream, saved, allocs, freed, book, shelf)
    }

    /* Error exit: close the file and free the output buffer. */
    method GiveUp()
      modifies this
      ensures View() == CaptureFile.GiveUp(old(View()))
    {
      open := false;
      freed := freed + multiset{outbuff};
    }

    /* The end of the file is written. */
    method Finish()
      modifies this
      ensures View() == CaptureFile.Finish(old(View()))
    {
      open, saved, shelf := false, saved + [stream], shelf + [book];
    }

    /* The tail shared by the initial and the update mode. */
    method OpenFile(c: Calls) returns (ok: bool)
      modifies this
      ensures (View(), ok) == OpenNext(old(View()), c)
    {
      open := c.open;
      if !open || !c.ctx || !c.begin || !c.headerWrite {
        GiveUp();
        return false;
      }
      size := c.headerLen;
      if !c.pcapHeader {
        GiveUp();
        return false;
      }
      stream, book := PCAP_HEADER, [];
      return true;
    }

    method FileCompressionOperation(mode: Mode, c: Calls) returns (ok: bool)
      requires mode.Update? ==> open
      modifies this
      ensures (View(), ok) == FileOperation(old(View()), mode, c)
      ensures old(Owns(View())) && (mode.Init? ==> !old(open)) ==> Owns(View()) && open == (ok && !mode.Close?)
    {
      if Owns(View()) && (mode.Init? ==> !open) {
        FileOperationOwns(View(), mode, c);
      }
      hide FileOperation, Owns;
      ok := Operate(mode, c);
    }

    method Operate(mode: Mode, c: Calls) returns (ok: bool)
      requires mode.Update? ==> open
      modifies this
      ensures (View(), ok) == FileOperation(old(View()), mode, c)
    {
      hide OpenNext;
      if mode == Init {
        outbuff, allocs := allocs, allocs + 1;
        size, no := 0, 1;
      } else if mode == Update {
        if !c.end || !c.endWrite {
          GiveUp();
          return false;
        }
        Finish();
        size, no := 0, no + 1;
      } else {
        if !open {
          return true;
        }
        if c.end {
          size := size + c.endLen;
        }
        Finish();
        GiveUp();
        return true;
      }
      ok := OpenFile(c);
    }

    method CompressFilePacket(limit: nat, p: Packet, c: PacketCalls) returns (ok: bool)
      modifies this
      ensures (View(), ok) == CompressPacket(old(View()), limit, p, c)
      ensures old(open) && old(Owns(View())) ==> Owns(View()) && open == ok
      ensures old(open) && ok && old(size) <= limit ==>
                stream == old(stream) + RecordBytes(Record(p, c.sec, c.nsec)) && saved == old(saved)
      ensures old(open) && ok && old(size) > limit ==>
                stream == PCAP_HEADER + RecordBytes(Record(p, c.sec, c.nsec)) && saved == old(saved) + [old(stream)]
    {
      PacketFacts(View(), limit, p, c);
      hide Owns, RecordBytes;
      ok := WriteRecord(limit, p, c);
    }

    method WriteRecord(limit: nat, p: Packet, c: PacketCalls) returns (ok: bool)
      modifies this
      ensures (View(), ok) == CompressPacket(old(View()), limit, p, c)
    {
      hide Owns, FileOperation, WriteSegments, PacketHeader;
      if !open {
        return true;
      }
      if size > limit {
        ok := Operate(Update, c.rotate);
        if !ok {
          return;
        }
      }
      var length := if SNAPLEN_MAX < p.len then SNAPLEN_MAX else p.len;
      if !c.header {
        var _ := Operate(Close, c.close);
        return false;
      }
      stream, book := stream + PacketHeader(p, c.sec, c.nsec), book + [Record(p, c.sec, c.nsec)];
      size := size + PACKET_HEADER_SIZE;
      ok := WriteData(p.segs, length, c);
    }

    method WriteData(segs: seq<seq<byte>>, length: nat, c: PacketCalls) returns (ok: bool)
      modifies this
      ensures (View(), ok) == WriteSegments(old(View()), segs, 0, length, c)
    {
      var remaining, k := length, 0;
      while k < |segs| && remaining > 0
        invariant 0 <= k <= |segs| && 0 <= remaining
        invariant WriteSegments(old(View()), segs, 0, length, c) == WriteSegments(View(), segs, k, remaining, c)
      {
        var n := if |segs[k]| < remaining then |segs[k]| else remaining;
        if k == c.failAt {
          var _ := Operate(Close, c.close);
          return false;
        }
        stream := stream + segs[k][..n];
        size := size + n;
        k, remaining := k + 1, remaining - n;
      }
      return true;
    }
  }

  lemma PacketFacts(f: File, limit: nat, p: Packet, c: PacketCalls)
    ensures var (g, ok) := CompressPacket(f, limit, p, c);
            var r := RecordBytes(Record(p, c.sec, c.nsec));
            && (f.open && Owns(f) ==> Owns(g) && g.open == ok)
            && (f.open && ok && f.size <= limit ==> g.stream == f.stream + r && g.saved == f.saved)
            && (f.open && ok && f.size > limit ==> g.stream == PCAP_HEADER + r && g.saved == f.saved + [f.stream])
  {
    hide CompressPacket, Owns, RecordBytes;
    if f.open {
      if Owns(f) {
        CompressPacketOwns(f, limit, p, c);
      }
      if CompressPacket(f, limit, p, c).1 {
        RecordOfPacket(f, limit, p, c);
      }
    }
  }

  /** Writer part of `struct pcap_mng_info`. */
  class WriterThread {
    var thread: Capture.Thread
    var stop: bool
    const info: WriterInfo

    constructor ()
      ensures View() == Capture.Writer(Capture.Idle, false, NO_FILE) && fresh(info)
    {
      thread, stop := Capture.Idle, false;
      info := new WriterInfo();
    }

    ghost function View(): Capture.Writer
      reads this, info
    {
      Capture.Writer(thread, stop, info.View())
    }
  }

  lemma CompressKeepsOpen(f: File, limit: nat, p: Packet, c: PacketCalls)
    ensures var (g, ok) := CompressPacket(f, limit, p, c); ok ==> g.open == f.open
  {
    if f.open {
      var (f1, ok) := if f.size > limit then FileOperation(f, Update, c.rotate) else (f, true);
      WriteSegmentsContents(BeginRecord(f1, p, c), p.segs, 0, Min(SNAPLEN_MAX, p.len), c);
    }
  }

  /** Globals of the capture process. The ghost fields account for packets and writers. */
  class Pcap {
    var request: bool
    var capturing: bool
    var cnt: int
    var receiver: Capture.Thread
    var receiverStop: bool
    var ring: seq<Packet>
    const ws: seq<WriterThread>
    ghost var acct: Capture.Account
    ghost var writers: seq<Capture.Writer>

    ghost predicate Valid()
      reads `writers, ws, set w | w in ws :: w.info
    {
      && |writers| == |ws|
      && (forall i :: 0 <= i < |ws| ==> writers[i] == ws[i].View())
      && forall i, j :: 0 <= i < j < |ws| ==> ws[i] != ws[j] && ws[i].info != ws[j].info
    }

    ghost function View(): Capture.State
      reads this
    {
      Capture.State(request, capturing, cnt, receiver, receiverStop, writers, ring, acct)
    }

    method CountDown()
      modifies `cnt
      ensures cnt == Capture.CountDown(old(cnt))
    {
      if cnt != 0 {
        cnt := cnt - 1;
      }
    }

    method Enqueue(u: Capture.Setup, burst: seq<Packet>)
      modifies `ring, `acct
      ensures View() == Capture.Enqueue(u, old(View()), burst)
    {
      hide Capture.Take;
      var room := if |ring| < u.ringSize then u.ringSize - |ring| else 0;
      var n := if room < |burst| then room else |burst|;
      ring := ring + burst[..n];
      acct := Capture.Take(acct, burst, n);
    }

    method ProcReceive(u: Capture.Setup, burst: seq<Packet>)
      requires Valid()
      modifies `receiver, `capturing, `cnt, `ring, `acct
      ensures Valid() && View() == Capture.ProcReceive(u, old(View()), burst)
      ensures old(Capture.Inv(View())) && (old(receiver).Idle? || old(receiver).Running?) ==> Capture.Inv(View())
    {
      if Capture.Inv(View()) && (receiver.Idle? || receiver.Running?) {
        Capture.ProcReceiveInv(u, View(), burst);
      }
      hide Capture.Inv;
      Receive(u, burst);
    }

    method Receive(u: Capture.Setup, burst: seq<Packet>)
      requires Valid()
      modifies `receiver, `capturing, `cnt, `ring, `acct
      ensures Valid() && View() == Capture.ProcReceive(u, old(View()), burst)
    {
      hide Capture.Enqueue;
      if !request {
        if receiver == Capture.Running {
          receiver, capturing := Capture.Idle, false;
          CountDown();
        }
      } else {
        if receiver == Capture.Idle {
          receiver, capturing := Capture.Running, true;
          cnt := cnt + 1;
        }
        if 1 + |ws| <= cnt {
          Enqueue(u, burst);
        }
      }
    }

    /* Compresses packets into the file of writer `i` until one fails. */
    method WriteBurst(i: nat, limit: nat, pkts: seq<Packet>, calls: seq<PacketCalls>)
      returns (ok: bool, ghost k: nat)
      requires i < |ws| && |calls| >= |pkts|
      modifies ws[i].info
      ensures (ws[i].info.View(), k, ok) == Capture.WriteBurst(old(ws[i].info.View()), limit, pkts, calls)
    {
      hide CompressPacket;
      ghost var f := ws[i].info.View();
      k := 0;
      for b := 0 to |pkts|
        invariant k == if f.open then b else 0
        invariant ws[i].info.View().open == f.open
        invariant var r := Capture.WriteBurst(ws[i].info.View(), limit, pkts[b..], calls[b..]);
                  Capture.WriteBurst(f, limit, pkts, calls) == (r.0, k + r.1, r.2)
      {
        CompressKeepsOpen(ws[i].info.View(), limit, pkts[b], calls[b]);
        assert pkts[b..][1..] == pkts[b+1..] && calls[b..][1..] == calls[b+1..];
        ok := ws[i].info.WriteRecord(limit, pkts[b], calls[b]);
        if !ok {
          return;
        }
        if f.open {
          k := k + 1;
        }
      }
      ok := true;
    }

    /* Writer `i` closes its file and goes to another state. */
    method Leave(i: nat, thread: Capture.Thread, close: Calls)
      requires Valid() && i < |ws|
      modifies `writers, ws[i], ws[i].info
      ensures Valid()
      ensures var w := old(writers[i]);
              writers == old(writers)[i := w.(thread := thread, file := FileOperation(w.file, Close, close).0)]
    {
      hide FileOperation;
      ws[i].thread := thread;
      var _ := ws[i].info.Operate(Close, close);
      writers := writers[i := ws[i].View()];
    }

    /* Writer `i` writes a burst into its file, or fails and closes it. */
    method WriteOrFail(i: nat, limit: nat, pkts: seq<Packet>, close: Calls, calls: seq<PacketCalls>)
      returns (ok: bool, ghost k: nat)
      requires Valid() && i < |ws| && |calls| >= |pkts|
      modifies `writers, ws[i], ws[i].info
      ensures Valid()
      ensures var (w, n) := Capture.WriteOrFail(old(writers[i]), limit, pkts, close, calls);
              k == n && writers == old(writers)[i := w]
    {
      hide Capture.WriteBurst, FileOperation;
      ok, k := WriteBurst(i, limit, pkts, calls);
      writers := writers[i := ws[i].View()];
      if !ok {
        Leave(i, Capture.Failed, close);
      }
    }

    /* Writer `i` takes the first `n` packets of the ring. */
    method TakeBurst(i: nat, limit: nat, n: nat, close: Calls, calls: seq<PacketCalls>) returns (ok: bool)
      requires Valid() && i < |ws| == |writers| && n <= |ring| && n <= |calls|
      modifies `ring, `acct, `writers, ws[i], ws[i].info
      ensures Valid()
      ensures var pkts := old(ring)[..n];
              var (w, k) := Capture.WriteOrFail(old(writers)[i], limit, pkts, close, calls);
              writers == old(writers)[i := w] && ring == old(ring)[n..] && acct == Capture.Put(old(acct), pkts, k)
    {
      hide Capture.WriteOrFail, Capture.Put, Valid;
      var pkts := ring[..n];
      ring := ring[n..];
      ghost var k;
      ok, k := WriteOrFail(i, limit, pkts, close, calls);
      acct := Capture.Put(acct, pkts, k);
    }

    /* The part of ProcWrite after start-up. */
    method ProcDequeued(u: Capture.Setup, i: nat, close: Calls, calls: seq<PacketCalls>) returns (ok: bool)
      requires Valid() && i < |ws| && |calls| == Capture.MAX_PCAP_BURST
      modifies `cnt, `ring, `acct, `writers, ws[i], ws[i].info
      ensures Valid() && View() == Capture.ProcDequeued(u, old(View()), i, close, calls)
    {
      assert |writers| == |ws|;
      hide Capture.WriteOrFail, Capture.Put, FileOperation, Valid;
      var n := if Capture.MAX_PCAP_BURST < |ring| then Capture.MAX_PCAP_BURST else |ring|;
      ok := true;
      if n != 0 {
        ok := TakeBurst(i, u.fileLimit, n, close, calls);
      } else if !capturing {
        CountDown();
        Leave(i, Capture.Idle, close);
      }
    }

    method ProcWrite(u: Capture.Setup, i: nat, open: Calls, close: Calls, calls: seq<PacketCalls>)
      returns (ok: bool)
      requires Valid() && i < |ws| && |calls| == Capture.MAX_PCAP_BURST
      modifies `cnt, `ring, `acct, `writers, ws[i], ws[i].info
      ensures Valid() && View() == Capture.ProcWrite(u, old(View()), i, open, close, calls)
      ensures old(Capture.Inv(View())) && (old(writers[i]).thread.Idle? || old(writers[i]).thread.Running?) ==>
                Capture.Inv(View())
    {
      if Capture.Inv(View()) && (writers[i].thread.Idle? || writers[i].thread.Running?) {
        Capture.ProcWriteInv(u, View(), i, open, close, calls);
      }
      hide Capture.Inv;
      ok := Write(u, i, open, close, calls);
    }

    /* Writer `i` opens its first file, or ends. */
    method Start(i: nat, open: Calls) returns (ok: bool)
      requires Valid() && i < |ws|
      modifies `writers, ws[i], ws[i].info
      ensures Valid()
      ensures var (w, r) := (old(writers[i]), FileOperation(old(writers[i]).file, Init, open));
              && ok == r.1
              && writers == old(writers)[i := w.(thread := if ok then Capture.Running else Capture.Ended, file := r.0)]
    {
      hide FileOperation;
      ws[i].thread := Capture.Running;
      ok := ws[i].info.Operate(Init, open);
      if !ok {
        ws[i].thread := Capture.Ended;
      }
      writers := writers[i := ws[i].View()];
    }

    method Write(u: Capture.Setup, i: nat, open: Calls, close: Calls, calls: seq<PacketCalls>)
      returns (ok: bool)
      requires Valid() && i < |ws| && |calls| == Capture.MAX_PCAP_BURST
      modifies `cnt, `ring, `acct, `writers, ws[i], ws[i].info
      ensures Valid() && View() == Capture.ProcWrite(u, old(View()), i, open, close, calls)
    {
      assert |writers| == |ws| && writers[i].thread == ws[i].thread;
      hide Capture.ProcDequeued, FileOperation, Valid;
      if ws[i].thread == Capture.Idle && !capturing {
        return true;
      }
      if ws[i].thread == Capture.Idle {
        ok := Start(i, open);
        if !ok {
          return;
        }
        cnt := cnt + 1;
      }
      ok := ProcDequeued(u, i, close, calls);
    }
  }
}
