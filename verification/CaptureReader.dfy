/** What a reader of capture files finds in the files a capture writes: the format of
draft-ietf-opsawg-pcap, read back with no use of the functions that write it. */
module CaptureReader {
  import opened CaptureFile
  import opened Capture
  import opened CaptureContents
  import opened Text

  /** One packet record: time stamp, original length, captured data. */
  datatype Entry = Entry(sec: nat, usec: nat, len: nat, data: seq<byte>)

  datatype FileHeader = FileHeader(major: nat, minor: nat, zone: nat, sigfigs: nat, snaplen: nat, link: nat)

  datatype Contents = Contents(header: FileHeader, entries: seq<Entry>)

  /** A number whose least significant byte comes first. */
  function Number(b: seq<byte>): nat {
    if b == [] then 0 else b[0] as int + 256 * Number(b[1..])
  }

  function ReadEntries(b: seq<byte>): Option<seq<Entry>>
    decreases |b|
  {
    if b == [] then Some([])
    else if |b| < 16 then None
    else
      var n := Number(b[8..12]);
      if |b| < 16 + n then None
      else
        match ReadEntries(b[16+n..])
        case None => None
        case Some(rest) =>
          Some([Entry(Number(b[0..4]), Number(b[4..8]), Number(b[12..16]), b[16..16+n])] + rest)
  }

  function ReadHeader(b: seq<byte>): Option<FileHeader> {
    if |b| < 24 || Number(b[0..4]) != 0xa1b2c3d4 then None
    else
      Some(FileHeader(Number(b[4..6]), Number(b[6..8]), Number(b[8..12]), Number(b[12..16]),
                      Number(b[16..20]), Number(b[20..24])))
  }

  function ReadFile(b: seq<byte>): Option<Contents> {
    var h := ReadHeader(b);
    if h.None? then None
    else
      match ReadEntries(b[24..])
      case None => None
      case Some(entries) => Some(Contents(h.value, entries))
  }

  // Numbers

  lemma NumberOfTwo(x: byte, y: byte)
    ensures Number([x, y]) == x as int + 256 * (y as int)
  {
    assert [x, y][1..] == [y] && [y][1..] == [];
    assert Number([y]) == y as int;
  }

  lemma NumberOfLe16(n: nat)
    ensures Number(Le16(n)) == n % 0x1_0000
  {
    NumberOfTwo(n % 256, n / 256 % 256);
  }

  lemma NumberOfFour(a: seq<byte>, b: seq<byte>)
    requires |a| == |b| == 2
    ensures Number(a + b) == Number(a) + 0x1_0000 * Number(b)
  {
    assert a == [a[0], a[1]];
    NumberOfTwo(a[0], a[1]);
    assert (a + b)[1..] == [a[1]] + b && ([a[1]] + b)[1..] == b;
    assert Number([a[1]] + b) == a[1] as int + 256 * Number(b);
  }

  lemma Halves(n: nat)
    ensures n % 0x1_0000 + 0x1_0000 * (n / 0x1_0000 % 0x1_0000) == n % 0x1_0000_0000
    ensures n % 0x1_0000 % 0x1_0000 == n % 0x1_0000
    ensures n / 0x1_0000 % 0x1_0000 % 0x1_0000 == n / 0x1_0000 % 0x1_0000
  {
  }

  lemma NumberOfLe32(n: nat)
    ensures |Le32(n)| == 4 && Number(Le32(n)) == n % 0x1_0000_0000
  {
    hide Number, Le16;
    Le16Size(n % 0x1_0000);
    Le16Size(n / 0x1_0000 % 0x1_0000);
    NumberOfFour(Le16(n % 0x1_0000), Le16(n / 0x1_0000 % 0x1_0000));
    NumberOfLe16(n % 0x1_0000);
    NumberOfLe16(n / 0x1_0000 % 0x1_0000);
    Halves(n);
  }

  lemma Le16Size(n: nat)
    ensures |Le16(n)| == 2
  {
  }

  // Headers

  lemma PacketHeaderIsRead(p: Packet, sec: nat, nsec: nat)
    ensures var h := PacketHeader(p, sec, nsec);
            && Number(h[0..4]) == sec % 0x1_0000_0000
            && Number(h[4..8]) == nsec / 1000 % 0x1_0000_0000
            && Number(h[8..12]) == (if p.len < 65535 then p.len else 65535)
            && Number(h[12..16]) == p.len % 0x1_0000_0000
  {
    hide Le32, Number;
    NumberOfLe32(sec);
    NumberOfLe32(nsec / 1000);
    NumberOfLe32(Min(SNAPLEN_MAX, p.len));
    NumberOfLe32(p.len);
    var h := PacketHeader(p, sec, nsec);
    assert h[0..4] == Le32(sec);
    assert h[4..8] == Le32(nsec / 1000);
    assert h[8..12] == Le32(Min(SNAPLEN_MAX, p.len));
    assert h[12..16] == Le32(p.len);
  }

  lemma FileHeaderIsRead(rest: seq<byte>)
    ensures ReadHeader(PCAP_HEADER + rest) == Some(FileHeader(2, 4, 0, 0, 65535, 1))
    ensures |PCAP_HEADER| == 24 && (PCAP_HEADER + rest)[24..] == rest
  {
    hide Le32, Le16, Number;
    NumberOfLe32(0xa1b2c3d4);
    NumberOfLe16(2);
    NumberOfLe16(4);
    NumberOfLe32(0);
    NumberOfLe32(SNAPLEN_MAX);
    NumberOfLe32(1);
    Le16Size(2);
    Le16Size(4);
    var b := PCAP_HEADER + rest;
    assert b[0..4] == Le32(0xa1b2c3d4);
    assert b[4..6] == Le16(2) && b[6..8] == Le16(4);
    assert b[8..12] == Le32(0) && b[12..16] == Le32(0);
    assert b[16..20] == Le32(SNAPLEN_MAX) && b[20..24] == Le32(1);
  }

  // Records

  /** The segments of a packet hold as much data as its length promises to the file. */
  predicate Whole(p: Packet) {
    |Concat(p.segs)| >= Min(SNAPLEN_MAX, p.len)
  }

  /** What a reader is to find of a packet. */
  function EntryOf(r: Record): Entry
    requires Whole(r.packet)
  {
    Entry(r.sec % 0x1_0000_0000, r.nsec / 1000 % 0x1_0000_0000, r.packet.len % 0x1_0000_0000,
          Concat(r.packet.segs)[..Min(65535, r.packet.len)])
  }

  /* The length in the header of a record is that of the data behind it exactly when the
     segments hold enough. */
  lemma RecordIsRightIffWhole(r: Record)
    ensures |RecordBytes(r)| == 16 + Number(RecordBytes(r)[8..12]) <==> Whole(r.packet)
  {
    PacketHeaderIsRead(r.packet, r.sec, r.nsec);
    hide PacketHeader, Concat, Number;
    var h := PacketHeader(r.packet, r.sec, r.nsec);
    assert RecordBytes(r)[8..12] == h[8..12];
  }

  lemma RecordIsRead(r: Record, rest: seq<byte>)
    requires Whole(r.packet) && ReadEntries(rest).Some?
    ensures ReadEntries(RecordBytes(r) + rest) == Some([EntryOf(r)] + ReadEntries(rest).value)
  {
    PacketHeaderIsRead(r.packet, r.sec, r.nsec);
    hide PacketHeader, Concat, Number;
    var h := PacketHeader(r.packet, r.sec, r.nsec);
    var data := Concat(r.packet.segs)[..Min(SNAPLEN_MAX, r.packet.len)];
    var b := RecordBytes(r) + rest;
    assert b == h + data + rest;
    assert b[0..4] == h[0..4] && b[4..8] == h[4..8] && b[8..12] == h[8..12] && b[12..16] == h[12..16];
    assert b[16..16+|data|] == data && b[16+|data|..] == rest;
  }

  predicate AllWhole(book: seq<Record>) {
    forall i :: 0 <= i < |book| ==> Whole(book[i].packet)
  }

  function Entries(book: seq<Record>): (r: seq<Entry>)
    requires AllWhole(book)
    ensures |r| == |book| && forall i :: 0 <= i < |r| ==> r[i] == EntryOf(book[i])
  {
    seq(|book|, i requires 0 <= i < |book| => EntryOf(book[i]))
  }

  lemma {:induction false} BytesAreRead(book: seq<Record>, rest: seq<byte>)
    requires AllWhole(book) && ReadEntries(rest).Some?
    ensures ReadEntries(Bytes(book) + rest) == Some(Entries(book) + ReadEntries(rest).value)
  {
    hide ReadEntries, RecordBytes, EntryOf, Whole;
    if book == [] {
      assert Bytes(book) + rest == rest;
      assert Entries(book) + ReadEntries(rest).value == ReadEntries(rest).value;
    } else {
      var n := |book| - 1;
      RecordIsRead(book[n], rest);
      BytesAreRead(book[..n], RecordBytes(book[n]) + rest);
      assert Bytes(book) + rest == Bytes(book[..n]) + (RecordBytes(book[n]) + rest);
      assert Entries(book) == Entries(book[..n]) + [EntryOf(book[n])];
      var more := ReadEntries(rest).value;
      assert Entries(book[..n]) + ([EntryOf(book[n])] + more) == Entries(book) + more;
    }
  }

  /* A file is read back as the times, lengths and data of its packets, in order. */
  lemma ImageIsRead(book: seq<Record>)
    requires AllWhole(book)
    ensures ReadFile(Image(book)) == Some(Contents(FileHeader(2, 4, 0, 0, 65535, 1), Entries(book)))
  {
    hide ReadHeader, Bytes, AllWhole, Entries, PCAP_HEADER;
    FileHeaderIsRead(Bytes(book));
    assert ReadEntries([]) == Some([]);
    hide ReadEntries;
    BytesAreRead(book, []);
    assert Bytes(book) + [] == Bytes(book);
    assert Entries(book) + [] == Entries(book);
  }

  /* In every run in which no writer failed, every file of every writer can be read, and holds
     what the packets put into it were. */
  lemma FilesAreReadable(u: Setup, n: nat, run: seq<Event>, i: nat, k: nat)
    requires IsRun(u, Start(n), run) && NoneFailed(End(u, Start(n), run).writers)
    requires i < |End(u, Start(n), run).writers| && k < |Files(End(u, Start(n), run).writers[i].file)|
    ensures var f := End(u, Start(n), run).writers[i].file;
            && k < |Books(f)|
            && (AllWhole(Books(f)[k]) ==>
                  ReadFile(Files(f)[k]) == Some(Contents(FileHeader(2, 4, 0, 0, 65535, 1), Entries(Books(f)[k]))))
  {
    FilesHoldWhatWasWritten(u, n, run);
    var f := End(u, Start(n), run).writers[i].file;
    hide IsRun, End, ReadFile, Image, AllWhole;
    assert Kept(f);
    if AllWhole(Books(f)[k]) {
      ImageIsRead(Books(f)[k]);
    }
  }
}
