/** The file of a capture writer: opening, rotating and closing it, and writing packets.

A writer owns a file handle and an output buffer from `malloc`. The outcomes of
the calls into LZ4 and stdio are parameters. The contents of a file are the bytes
handed to the compressor.
 */
module CaptureFile {

  const SNAPLEN_MAX := 65535
  const PACKET_HEADER_SIZE := 16

  type byte = b: int | 0 <= b < 256

  /** A captured packet: its recorded length and the data of its segments. */
  datatype Packet = Packet(id: nat, len: nat, segs: seq<seq<byte>>)

  datatype Mode = Init | Update | Close

  /** Outcomes of the foreign calls of one `file_compression_operation`. */
  datatype Calls = Calls(end: bool, endWrite: bool, endLen: nat, open: bool, ctx: bool,
                         begin: bool, headerLen: nat, headerWrite: bool, pcapHeader: bool)

  /** Outcomes of the foreign calls made for one packet: those of a rotation and of a close,
      the clock, the write of the header, and the segment whose write fails (if there is one). */
  datatype PacketCalls = PacketCalls(rotate: Calls, close: Calls, sec: nat, nsec: nat,
                                     header: bool, failAt: nat)

  /** A packet as it goes to a file: with the time it is written at. */
  datatype Record = Record(packet: Packet, sec: nat, nsec: nat)

  /** A writer's file state. Buffers are numbered as they are allocated; `freed` counts how
      often each was freed. `stream` is what the open file holds, `saved` the finished files;
      `book` and `shelf` list the packets that went into them. */
  datatype File = File(open: bool, outbuff: nat, size: nat, no: nat,
                       stream: seq<byte>, saved: seq<seq<byte>>,
                       allocs: nat, freed: multiset<nat>,
                       book: seq<Record>, shelf: seq<seq<Record>>)

  const NO_FILE := File(false, 0, 0, 0, [], [], 0, multiset{}, [], [])

  /* ----- Bytes ----- */

  function Le16(n: nat): seq<byte> {
    [n % 256, n / 256 % 256]
  }

  function Le32(n: nat): seq<byte> {
    Le16(n % 0x10000) + Le16(n / 0x10000 % 0x10000)
  }

  const PCAP_HEADER: seq<byte> :=
    Le32(0xa1b2c3d4) + Le16(2) + Le16(4) + Le32(0) + Le32(0) + Le32(SNAPLEN_MAX) + Le32(1)

  function Min(a: nat, b: nat): nat {
    if a < b then a else b
  }

  function PacketHeader(p: Packet, sec: nat, nsec: nat): (h: seq<byte>)
    ensures |h| == PACKET_HEADER_SIZE
  {
    Le32(sec) + Le32(nsec / 1000) + Le32(Min(SNAPLEN_MAX, p.len)) + Le32(p.len)
  }

  function Concat(segs: seq<seq<byte>>): seq<byte> {
    if segs == [] then [] else segs[0] + Concat(segs[1..])
  }

  /* ----- File operations ----- */

  function FreeBuffer(f: File): File {
    f.(freed := f.freed + multiset{f.outbuff})
  }

  /** The open file is finished and put aside. */
  function Finish(f: File): File {
    f.(open := false, saved := f.saved + [f.stream], shelf := f.shelf + [f.book])
  }

  /** Error exit with the file open. */
  function GiveUp(f: File): File {
    FreeBuffer(f.(open := false))
  }

  /** The common tail of the initial and the update mode: a new file with its headers. */
  function OpenNext(f: File, c: Calls): (File, bool) {
    if !c.open then (FreeBuffer(f.(open := false)), false)
    else if !c.ctx || !c.begin || !c.headerWrite then (GiveUp(f), false)
    else
      var f := f.(open := true, size := c.headerLen);
      if !c.pcapHeader then (GiveUp(f), false) else (f.(stream := PCAP_HEADER, book := []), true)
  }

  function FileOperation(f: File, mode: Mode, c: Calls): (File, bool)
    requires mode.Update? ==> f.open
  {
    match mode
    case Init =>
      OpenNext(f.(outbuff := f.allocs, allocs := f.allocs + 1, size := 0, no := 1), c)
    case Update =>
      if !c.end || !c.endWrite then (GiveUp(f), false)
      else OpenNext(Finish(f).(size := 0, no := f.no + 1), c)
    case Close =>
      if !f.open then (f, true)
      else
        (FreeBuffer(Finish(f).(size := if c.end then f.size + c.endLen else f.size)), true)
  }

  /** The data loop of `compress_file_packet`, from segment `k` on. */
  function WriteSegments(f: File, segs: seq<seq<byte>>, k: nat, remaining: nat, c: PacketCalls): (File, bool)
    requires k <= |segs|
    decreases |segs| - k
  {
    if k == |segs| || remaining == 0 then (f, true)
    else if k == c.failAt then (FileOperation(f, Close, c.close).0, false)
    else
      var n := Min(|segs[k]|, remaining);
      WriteSegments(f.(stream := f.stream + segs[k][..n], size := f.size + n), segs, k + 1, remaining - n, c)
  }

  /** The packet header is written and the packet entered in the book. */
  function BeginRecord(f: File, p: Packet, c: PacketCalls): File {
    f.(stream := f.stream + PacketHeader(p, c.sec, c.nsec), size := f.size + PACKET_HEADER_SIZE,
       book := f.book + [Record(p, c.sec, c.nsec)])
  }

  /** `compress_file_packet`. */
  function CompressPacket(f: File, limit: nat, p: Packet, c: PacketCalls): (File, bool) {
    if !f.open then (f, true)
    else
      var (f, ok) := if f.size > limit then FileOperation(f, Update, c.rotate) else (f, true);
      if !ok then (f, false)
      else if !c.header then (FileOperation(f, Close, c.close).0, false)
      else
        WriteSegments(BeginRecord(f, p, c), p.segs, 0, Min(SNAPLEN_MAX, p.len), c)
  }

  /* ----- Ownership ----- */

  ghost predicate Live(f: File, buffer: nat) {
    buffer < f.allocs && buffer !in f.freed
  }

  /** The file is open exactly when its output buffer is live; every other buffer ever
      allocated was freed, and none twice. */
  ghost predicate Owns(f: File) {
    && (f.open <==> Live(f, f.outbuff))
    && forall b: nat :: f.freed[b] == if b < f.allocs && !(f.open && b == f.outbuff) then 1 else 0
  }

  lemma FileOperationOwns(f: File, mode: Mode, c: Calls)
    requires Owns(f) && (mode.Update? ==> f.open) && (mode.Init? ==> !f.open)
    ensures var (g, ok) := FileOperation(f, mode, c);
            Owns(g) && g.open == (ok && !mode.Close?) && (mode.Close? ==> ok)
  {
  }

  lemma {:induction false} WriteSegmentsOwns(f: File, segs: seq<seq<byte>>, k: nat, remaining: nat, c: PacketCalls)
    requires Owns(f) && f.open && k <= |segs|
    ensures var (g, ok) := WriteSegments(f, segs, k, remaining, c); Owns(g) && g.open == ok
    decreases |segs| - k
  {
    if k < |segs| && remaining > 0 {
      if k == c.failAt {
        FileOperationOwns(f, Close, c.close);
      } else {
        var n := Min(|segs[k]|, remaining);
        WriteSegmentsOwns(f.(stream := f.stream + segs[k][..n], size := f.size + n), segs, k + 1, remaining - n, c);
      }
    }
  }

  lemma CompressPacketOwns(f: File, limit: nat, p: Packet, c: PacketCalls)
    requires Owns(f) && f.open
    ensures var (g, ok) := CompressPacket(f, limit, p, c); Owns(g) && g.open == ok
  {
    var (f1, ok) := if f.size > limit then FileOperation(f, Update, c.rotate) else (f, true);
    if f.size > limit {
      FileOperationOwns(f, Update, c.rotate);
    }
    if ok {
      if !c.header {
        FileOperationOwns(f1, Close, c.close);
      } else {
        WriteSegmentsOwns(BeginRecord(f1, p, c), p.segs, 0, Min(SNAPLEN_MAX, p.len), c);
      }
    }
  }

  /* ----- Success ----- */

  /** The calls that make a new file. */
  predicate Opens(c: Calls) {
    c.open && c.ctx && c.begin && c.headerWrite && c.pcapHeader
  }

  /* A file operation succeeds exactly when each of its calls does; then a new file has the
     file header and the next number, and a finished one is put aside as it was. */
  lemma FileOperationIff(f: File, mode: Mode, c: Calls)
    requires mode.Update? ==> f.open
    ensures var (g, ok) := FileOperation(f, mode, c);
            && (ok <==> match mode
                        case Init => Opens(c)
                        case Update => c.end && c.endWrite && Opens(c)
                        case Close => true)
            && (ok && !mode.Close? ==>
                  g.open && g.stream == PCAP_HEADER && g.book == [] && g.size == c.headerLen
                  && g.no == if mode.Init? then 1 else f.no + 1)
            && (ok && mode.Init? ==> g.saved == f.saved && g.shelf == f.shelf)
            && (ok && mode.Update? ==> g.saved == f.saved + [f.stream] && g.shelf == f.shelf + [f.book])
            && (mode.Close? && f.open ==> g.saved == f.saved + [f.stream] && g.shelf == f.shelf + [f.book]
                                          && g.size == f.size + if c.end then c.endLen else 0)
            && (mode.Close? && !f.open ==> g == f)
  {
  }

  /* The data loop fails exactly when the write of a segment it comes to fails. */
  lemma {:induction false} WriteSegmentsIff(f: File, segs: seq<seq<byte>>, k: nat, remaining: nat, c: PacketCalls)
    requires k <= |segs|
    ensures WriteSegments(f, segs, k, remaining, c).1 <==>
              !(k <= c.failAt < |segs| && |Concat(segs[k..c.failAt])| < remaining)
    decreases |segs| - k
  {
    if k < |segs| && remaining > 0 && k != c.failAt {
      var n := Min(|segs[k]|, remaining);
      WriteSegmentsIff(f.(stream := f.stream + segs[k][..n], size := f.size + n), segs, k + 1, remaining - n, c);
      if k < c.failAt < |segs| {
        assert segs[k..c.failAt][1..] == segs[k+1..c.failAt];
      }
    }
  }

  /* A packet is written exactly when a rotation it needs, the write of its header and the
     writes of the segments that hold its first 65535 bytes succeed. */
  lemma CompressPacketIff(f: File, limit: nat, p: Packet, c: PacketCalls)
    requires f.open
    ensures CompressPacket(f, limit, p, c).1 <==>
              && (f.size > limit ==> c.rotate.end && c.rotate.endWrite && Opens(c.rotate))
              && c.header
              && !(c.failAt < |p.segs| && |Concat(p.segs[..c.failAt])| < Min(SNAPLEN_MAX, p.len))
  {
    var (f1, ok) := if f.size > limit then FileOperation(f, Update, c.rotate) else (f, true);
    if f.size > limit {
      FileOperationIff(f, Update, c.rotate);
    }
    WriteSegmentsIff(BeginRecord(f1, p, c), p.segs, 0, Min(SNAPLEN_MAX, p.len), c);
    if c.failAt < |p.segs| {
      assert p.segs[0..c.failAt] == p.segs[..c.failAt];
    }
  }

  /* ----- Contents ----- */

  lemma {:induction false} WriteSegmentsContents(f: File, segs: seq<seq<byte>>, k: nat, remaining: nat, c: PacketCalls)
    requires k <= |segs|
    ensures var (g, ok) := WriteSegments(f, segs, k, remaining, c);
            var data := Concat(segs[k..]);
            var n := Min(remaining, |data|);
            ok ==> && g.stream == f.stream + data[..n] && g.size == f.size + n && g.saved == f.saved
                   && g.book == f.book && g.shelf == f.shelf && g.open == f.open
    decreases |segs| - k
  {
    if k < |segs| && remaining > 0 && k != c.failAt {
      var n := Min(|segs[k]|, remaining);
      var f1 := f.(stream := f.stream + segs[k][..n], size := f.size + n);
      assert WriteSegments(f, segs, k, remaining, c) == WriteSegments(f1, segs, k + 1, remaining - n, c);
      assert segs[k..][1..] == segs[k+1..];
      assert Concat(segs[k..]) == segs[k] + Concat(segs[k+1..]);
      WriteSegmentsContents(f1, segs, k + 1, remaining - n, c);
      hide WriteSegments, Concat;
      FirstOfTwo(segs[k], Concat(segs[k+1..]), remaining);
    }
  }

  /* The first `n` bytes of two segments. */
  lemma FirstOfTwo(a: seq<byte>, b: seq<byte>, n: nat)
    ensures var k := Min(|a|, n);
            (a + b)[..Min(n, |a + b|)] == a[..k] + b[..Min(n - k, |b|)]
  {
  }

  /** What a packet adds to a file: a 16-byte header and exactly the first min(65535, length)
      bytes of its segments (all of them, if they hold fewer). */
  function RecordBytes(r: Record): seq<byte> {
    PacketHeader(r.packet, r.sec, r.nsec)
    + Concat(r.packet.segs)[..Min(Min(SNAPLEN_MAX, r.packet.len), |Concat(r.packet.segs)|)]
  }

  /* A packet that is written adds its record to the file and to the book; a rotation puts
     both aside first and starts the new file with the file header. */
  lemma RecordOfPacket(f: File, limit: nat, p: Packet, c: PacketCalls)
    requires f.open && CompressPacket(f, limit, p, c).1
    ensures var g := CompressPacket(f, limit, p, c).0;
            var r := Record(p, c.sec, c.nsec);
            && g.open
            && if f.size > limit
               then g.saved == f.saved + [f.stream] && g.stream == PCAP_HEADER + RecordBytes(r)
                    && g.shelf == f.shelf + [f.book] && g.book == [r]
               else g.saved == f.saved && g.stream == f.stream + RecordBytes(r)
                    && g.shelf == f.shelf && g.book == f.book + [r]
  {
    var (f1, ok) := if f.size > limit then FileOperation(f, Update, c.rotate) else (f, true);
    WriteSegmentsContents(BeginRecord(f1, p, c), p.segs, 0, Min(SNAPLEN_MAX, p.len), c);
    assert p.segs[0..] == p.segs;
  }

  /* The size counter of a file after a packet stays within one packet of the limit. */
  lemma SizeIsBounded(f: File, limit: nat, p: Packet, c: PacketCalls)
    requires f.open && CompressPacket(f, limit, p, c).1
    ensures var bound := if limit < c.rotate.headerLen then c.rotate.headerLen else limit;
            CompressPacket(f, limit, p, c).0.size <= bound + PACKET_HEADER_SIZE + SNAPLEN_MAX
  {
    var (f1, ok) := if f.size > limit then FileOperation(f, Update, c.rotate) else (f, true);
    WriteSegmentsContents(BeginRecord(f1, p, c), p.segs, 0, Min(SNAPLEN_MAX, p.len), c);
  }
}
