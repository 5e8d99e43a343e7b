/** The values of fields: the conversions of src/primary/flow/common.c:63-283, from words to bytes. */
module FlowValues {
  import opened Text
  import opened FlowParser
  import opened Bytes

  /** The host: its byte order, and the text behind a buffer that was filled without a null. */
  datatype Host = Host(little: bool, behind: string)

  /** What a conversion does to a field: puts bytes at its beginning, or sets bits in them. */
  datatype Patch = Put(bytes: seq<bv8>) | Set(bytes: seq<bv8>)

  /** The low bytes of a number in network order. */
  function Network(n: nat, size: nat): (b: seq<bv8>)
    ensures |b| == size
  {
    if size == 0 then [] else Network(n / 256, size - 1) + [Byte(n)]
  }

  function Reverse(b: seq<bv8>): (r: seq<bv8>)
    ensures |r| == |b| && forall i :: 0 <= i < |b| ==> r[i] == b[|b|-1-i]
  {
    if b == [] then [] else Reverse(b[1..]) + [b[0]]
  }

  function HostOrder(host: Host, n: nat, size: nat): (b: seq<bv8>)
    ensures |b| == size
  {
    if host.little then Reverse(Network(n, size)) else Network(n, size)
  }

  // Ethernet addresses

  const ADDR_LEN := 6
  const MAC_BUFFER := 32

  /** The pieces `strtok` finds between colons. */
  function Pieces(s: string): (r: seq<string>)
    decreases |s|
  {
    match Piece(s)
    case None => []
    case Some((p, rest)) => [p] + Pieces(rest)
  }

  /** Each piece in base 16, cut to a byte. */
  function PieceBytes(pieces: seq<string>): Option<seq<bv8>> {
    if pieces == [] then Some([])
    else
      var n, rest := Strtoul(pieces[0], 16), PieceBytes(pieces[1..]);
      if n.None? || rest.None? then None else Some([Byte(n.value)] + rest.value)
  }

  /** `str_to_rte_ether_addr` works on a copy that holds 32 characters. */
  function Address(host: Host, s: string): Option<seq<bv8>> {
    var pieces := Pieces(if |s| < MAC_BUFFER then s else s[..MAC_BUFFER] + host.behind);
    if |pieces| > ADDR_LEN then None else PieceBytes(pieces)
  }

  // All conversions

  /** What a conversion makes of a number. The checks of a range come after the number has
      been cut to the size of its variable. */
  function NumberPatch(host: Host, c: Conversion, n: nat): Option<Patch> {
    match c
    case EtherAddr => None
    case Tci => Some(Put(HostOrder(host, n, 2)))
    case Pcp => if n % 0x100 > 0x7 then None else Some(Put([Byte(n)]))
    case Be16 => Some(Put(Network(n, 2)))
    case Uint16 => Some(Put(HostOrder(host, n, 2)))
    case Uint32 => Some(Put(HostOrder(host, n, 4)))
    case SetPcp => if n % 0x100 > 0x7 then None else Some(Set([Byte(n) << 1]))
    case SetDei => if n % 0x100 > 0x1 then None else Some(Set([Byte(n)]))
    case SetVid => if n % 0x1_0000 > 0xfff then None else Some(Set(Network(n, 2)))
  }

  /** What a conversion makes of a word, `None` if it refuses it. */
  function Reading(host: Host, c: Conversion, text: string): Option<Patch> {
    if c.EtherAddr? then
      var a := Address(host, text);
      if a.None? then None else Some(Put(a.value))
    else
      var n := Strtoul(text, 0);
      if n.None? then None else NumberPatch(host, c, n.value)
  }

  lemma ReadingOfDecimal(host: Host, c: Conversion, n: int)
    requires !c.EtherAddr?
    ensures Reading(host, c, Decimal(n)) == NumberPatch(host, c, Ulong(n))
  {
    hide Strtoul, Decimal, NumberPatch;
    StrtoulOfDecimal(n, 0);
  }

  function Patched(p: Patch, was: seq<bv8>): (b: seq<bv8>)
    ensures |b| == |was|
  {
    seq(|was|, i requires 0 <= i < |was| =>
      if i >= |p.bytes| then was[i] else if p.Put? then p.bytes[i] else was[i] | p.bytes[i])
  }

  predicate Accepts(host: Host, c: Conversion, text: string) {
    Reading(host, c, text).Some?
  }

  /** The bytes of a field after a conversion that accepted its word. */
  function Store(host: Host, c: Conversion, text: string, was: seq<bv8>): (b: seq<bv8>)
    ensures |b| == |was|
  {
    var p := Reading(host, c, text);
    if p.None? then was else Patched(p.value, was)
  }

  // Numbers

  lemma TwoBytes(n: nat)
    ensures Network(n, 2) == [Byte(n / 256), Byte(n)]
    ensures Reverse(Network(n, 2)) == [Byte(n), Byte(n / 256)]
  {
    assert Network(n / 256, 1) == Network(n / 256 / 256, 0) + [Byte(n / 256)] == [Byte(n / 256)];
  }

  lemma FourBytes(n: nat)
    ensures var b := [Byte(n / 256 / 256 / 256), Byte(n / 256 / 256), Byte(n / 256), Byte(n)];
            Network(n, 4) == b && Reverse(Network(n, 4)) == [b[3], b[2], b[1], b[0]]
  {
    hide Byte, Network, Reverse;
    NetworkMore(n, 3);
    NetworkMore(n / 256, 2);
    TwoBytes(n / 256 / 256);
    ReverseFour(Network(n, 4));
  }

  lemma ReverseFour(b: seq<bv8>)
    requires |b| == 4
    ensures Reverse(b) == [b[3], b[2], b[1], b[0]]
  {
  }

  lemma NetworkMore(n: nat, size: nat)
    ensures Network(n, size + 1) == Network(n / 256, size) + [Byte(n)]
  {
  }

  /** A 16-bit field keeps the low 16 bits of a number and nothing else. */
  lemma SixteenBits(host: Host, n: nat, m: nat)
    requires n % 0x1_0000 == m % 0x1_0000
    ensures Network(n, 2) == Network(m, 2) && HostOrder(host, n, 2) == HostOrder(host, m, 2)
  {
    TwoBytes(n);
    TwoBytes(m);
    LowBits(n);
    LowBits(m);
    assert Byte(n) == Byte(m) && Byte(n / 256) == Byte(m / 256);
    hide Byte, Network;
  }

  lemma LowBits(n: nat)
    ensures n / 256 % 256 == n % 0x1_0000 / 256 && n % 256 == n % 0x1_0000 % 256
  {
  }

  /** The tag control information is stored in the order of the host, which is that of the
      network only on a big-endian host or when both bytes are the same. */
  lemma TciIsNetworkOrderIff(host: Host, n: int)
    ensures Reading(host, Tci, Decimal(n)) == Reading(host, Be16, Decimal(n)) <==>
              !host.little || Byte(Ulong(n)) == Byte(Ulong(n) / 256)
  {
    ReadingOfDecimal(host, Tci, n);
    ReadingOfDecimal(host, Be16, n);
    TwoBytes(Ulong(n));
    hide Reading, Decimal, Network, Byte, Ulong;
  }

  /**
   * The ranges of a priority, a drop bit and a VLAN ID are checked on what is
   * left of the number, so numbers far outside are accepted.
   */
  lemma RangesAreOfLowBits(host: Host, n: int)
    ensures Accepts(host, SetPcp, Decimal(n)) <==> Accepts(host, Pcp, Decimal(n))
    ensures Accepts(host, SetPcp, Decimal(n)) <==> Ulong(n) % 0x100 < 8
    ensures Accepts(host, SetDei, Decimal(n)) <==> Ulong(n) % 0x100 < 2
    ensures Accepts(host, SetVid, Decimal(n)) <==> Ulong(n) % 0x1_0000 < 0x1000
  {
    hide Reading, Decimal, Byte, Network;
    ReadingOfDecimal(host, SetPcp, n);
    ReadingOfDecimal(host, Pcp, n);
    ReadingOfDecimal(host, SetDei, n);
    ReadingOfDecimal(host, SetVid, n);
  }

  // Ethernet addresses that were printed

  /** Two hexadecimal digits. */
  function Hex2(v: nat): (s: string)
    requires v < 256
  {
    [Digit(v / 16), Digit(v % 16)]
  }

  predicate Octets(a: seq<nat>) {
    forall i :: 0 <= i < |a| ==> a[i] < 256
  }

  predicate IsAddress(a: seq<nat>) {
    |a| == ADDR_LEN && Octets(a)
  }

  /** `rte_ether_format_addr`. */
  function AddressText(a: seq<nat>): (s: string)
    requires a != [] && Octets(a)
    ensures |s| == 3 * |a| - 1
  {
    if |a| == 1 then Hex2(a[0]) else Hex2(a[0]) + ":" + AddressText(a[1..])
  }

  lemma HexOfTwo(v: nat)
    requires v < 256
    ensures Strtoul(Hex2(v), 16) == Some(v) && ':' !in Hex2(v)
  {
    var s := Hex2(v);
    assert DigitOf(s[0]) == v / 16 && DigitOf(s[1]) == v % 16;
    assert s[..1] == [s[0]] && [s[0]][..0] == "";
    assert ValueIn([s[0]], 16) == v / 16 && ValueIn(s, 16) == v / 16 * 16 + v % 16;
  }

  function PieceTexts(a: seq<nat>): (r: seq<string>)
    requires Octets(a)
  {
    if a == [] then [] else [Hex2(a[0])] + PieceTexts(a[1..])
  }

  function AddressBytes(a: seq<nat>): (b: seq<bv8>)
    ensures |b| == |a| && forall i :: 0 <= i < |a| ==> b[i] == Byte(a[i])
  {
    if a == [] then [] else [Byte(a[0])] + AddressBytes(a[1..])
  }

  lemma {:induction false} PiecesOfAddress(a: seq<nat>)
    requires a != [] && Octets(a)
    ensures Pieces(AddressText(a)) == PieceTexts(a) && |PieceTexts(a)| == |a|
  {
    HexOfTwo(a[0]);
    hide Hex2;
    if |a| == 1 {
      CutAtColon(AddressText(a), "");
      assert Pieces("") == [];
    } else {
      CutAtColon(Hex2(a[0]), AddressText(a[1..]));
      PiecesOfAddress(a[1..]);
    }
  }

  lemma {:induction false} BytesOfPieces(a: seq<nat>)
    requires Octets(a)
    ensures PieceBytes(PieceTexts(a)) == Some(AddressBytes(a))
  {
    hide Hex2, Strtoul, Byte;
    if a != [] {
      HexOfTwo(a[0]);
      BytesOfPieces(a[1..]);
    }
  }

  /** An address as it is printed is read back, byte for byte; so is the beginning of one, of
      which only the first bytes are written; a seventh octet is refused. */
  lemma AddressIsReadBack(host: Host, a: seq<nat>)
    requires 1 <= |a| <= 10 && Octets(a)
    ensures Reading(host, EtherAddr, AddressText(a)) == if |a| <= 6 then Some(Put(AddressBytes(a))) else None
  {
    hide AddressText, Pieces, PieceBytes, PieceTexts, AddressBytes, Strtoul, NumberPatch, Octets;
    PiecesOfAddress(a);
    BytesOfPieces(a);
  }

  /** Of a word of 32 characters or more only the first 32 count. */
  lemma LongAddressIsCut(host: Host, s: string, t: string)
    requires |s| >= 32 && |t| >= 32 && s[..32] == t[..32]
    ensures Reading(host, EtherAddr, s) == Reading(host, EtherAddr, t)
  {
    hide Pieces, PieceBytes, Strtoul, NumberPatch;
  }

  // The tag control information of a VLAN

  /** Three bits of priority, the drop bit and twelve bits of VLAN ID, in network order. */
  function TagControl(pcp: nat, dei: nat, vid: nat): (b: seq<bv8>)
    ensures |b| == 2
  {
    [(Byte(pcp) << 5) | (Byte(dei) << 4) | Byte(vid / 256), Byte(vid)]
  }

  lemma Small(n: nat)
    requires n < 16
    ensures Byte(n) <= 15 && (n < 8 ==> Byte(n) <= 7) && (n < 2 ==> Byte(n) <= 1) && (Byte(n) == 0 <==> n == 0)
  {
    match n
    case 0 => case 1 => case 2 => case 3 => case 4 => case 5 => case 6 => case 7 => case 8 => case 9 =>
    case 10 => case 11 => case 12 => case 13 => case 14 => case _ =>
  }

  lemma Nibbles(x: bv8, y: bv8, z: bv8)
    requires x <= 7 && y <= 1 && z <= 15
    ensures (((0 | (x << 1)) | y) | z) == ((x << 5) | (y << 4) | z) <==> x == 0 && y == 0
  {
  }
}
