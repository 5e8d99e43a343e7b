/** Classification tables of a spp_vf classifier component.

A classifier side holds one MAC table per VLAN ID. The tables are filled by
walking the TX ports once, and are then consulted for every packet. This module
defines the tables and the lookups on them, and proves that the answers are
those of a linear scan over the TX ports.
 */
module ClassifierTable {
  import opened Sequences

  /** VID under which untagged packets and plain MAC entries are filed. */
  const VLAN_UNTAGGED_VID := 0x0fff

  /** MAC value that marks a port as the default of its VID. */
  const CLS_DUMMY_ADDR := 0x0100_0000_0000

  /** Number of 48-bit addresses: only the low six bytes of a MAC value are a key. */
  const MAC_SPACE := 0x1_0000_0000_0000

  const ETHER_TYPE_VLAN := 0x8100

  type Vid = v: int | 0 <= v < 0x1000
  type MacKey = m: int | 0 <= m < 0x1_0000_0000_0000

  /** Classification attributes of one TX port; `mac == 0` means "not classified". */
  datatype TxPort = TxPort(port: nat, vid: Vid, mac: nat)

  /** Headers of a received packet. The first octet of `dst` is its low byte. */
  datatype Header = Header(dst: MacKey, etherType: nat, tci: nat)

  /** Tables of one VID: exact MAC entries, the ports of the VID and its default (or -1). */
  datatype MacClassifier = MacClassifier(tbl: map<MacKey, nat>, ports: seq<nat>, def: int)

  type Tables = map<Vid, MacClassifier>

  /* ----- Packet headers ----- */

  function GetVid(h: Header): Vid {
    if h.etherType == ETHER_TYPE_VLAN then h.tci % 0x1000 else VLAN_UNTAGGED_VID
  }

  predicate IsMulticast(dst: MacKey) {
    dst % 2 == 1
  }

  /* The VID is the low twelve bits of the tag, below three PCP bits and one DEI bit. */
  lemma VidOfTag(dst: MacKey, pcp: nat, dei: nat, vid: Vid)
    requires pcp < 8 && dei < 2
    ensures GetVid(Header(dst, ETHER_TYPE_VLAN, pcp * 0x2000 + dei * 0x1000 + vid)) == vid
  {
    assert pcp * 0x2000 + dei * 0x1000 + vid == (pcp * 2 + dei) * 0x1000 + vid;
  }

  /* ----- Frames ----- */

  type Octet = b: int | 0 <= b < 256

  /** Six octets of an address, the first one in the low byte. */
  function AddressOf(a: seq<Octet>): MacKey
    requires |a| == 6
  {
    var n: seq<int> := a;
    n[0] + 0x100 * n[1] + 0x1_0000 * n[2] + 0x100_0000 * n[3] + 0x1_0000_0000 * n[4] + 0x100_0000_0000 * n[5]
  }

  /** What the classifier reads of a frame: the destination, and the two 16-bit numbers in
      network order behind the source address. */
  function HeaderOf(frame: seq<Octet>): Header
    requires |frame| >= 14
  {
    var n: seq<int> := frame;
    Header(AddressOf(frame[..6]), 0x100 * n[12] + n[13], if |n| >= 16 then 0x100 * n[14] + n[15] else 0)
  }

  /** The tag of a frame, in front of its type (clause 9.6 of IEEE 802.1Q): three bits of
      priority, one of drop eligibility and twelve of VLAN ID. */
  datatype Tagging = Untagged | Tagged(pcp: nat, dei: nat, vid: Vid)

  function Tag(g: Tagging): seq<Octet>
    requires g.Tagged? ==> g.pcp < 8 && g.dei < 2
  {
    match g
    case Untagged => []
    case Tagged(pcp, dei, vid) => [0x81, 0x00, 0x20 * pcp + 0x10 * dei + vid / 0x100, vid % 0x100]
  }

  /** A frame from its parts: destination, source, tag, type and payload. */
  function Frame(dst: seq<Octet>, src: seq<Octet>, g: Tagging, etherType: seq<Octet>, rest: seq<Octet>): seq<Octet>
    requires g.Tagged? ==> g.pcp < 8 && g.dei < 2
  {
    dst + src + Tag(g) + etherType + rest
  }

  /** A frame the classifier is to read: with proper addresses, and a type that is not that of a tag. */
  ghost predicate Proper(dst: seq<Octet>, src: seq<Octet>, g: Tagging, etherType: seq<Octet>) {
    && |dst| == |src| == 6 && |etherType| == 2 && etherType != [0x81, 0x00]
    && (g.Tagged? ==> g.pcp < 8 && g.dei < 2)
  }

  /* A tagged frame has the VID of its tag, an untagged one the VID reserved for such frames;
     group addresses are those with the lowest bit of their first octet set. */
  lemma HeaderOfFrame(dst: seq<Octet>, src: seq<Octet>, g: Tagging, etherType: seq<Octet>, rest: seq<Octet>)
    requires Proper(dst, src, g, etherType)
    ensures var h := HeaderOf(Frame(dst, src, g, etherType, rest));
            && h.dst == AddressOf(dst)
            && GetVid(h) == (if g.Tagged? then g.vid else 0xfff)
            && (IsMulticast(h.dst) <==> dst[0] % 2 == 1)
  {
    var f := Frame(dst, src, g, etherType, rest);
    assert f[..6] == dst;
    var h := HeaderOf(f);
    if g.Tagged? {
      assert f[12] == 0x81 && f[13] == 0x00;
      assert f[14] == Tag(g)[2] && f[15] == Tag(g)[3];
      VidOfTag(h.dst, g.pcp, g.dei, g.vid);
      assert h.tci == g.pcp * 0x2000 + g.dei * 0x1000 + g.vid;
    } else {
      assert f[12] == etherType[0] && f[13] == etherType[1];
      assert etherType == [etherType[0], etherType[1]];
    }
    GroupBit(dst);
  }

  lemma GroupBit(a: seq<Octet>)
    requires |a| == 6
    ensures IsMulticast(AddressOf(a)) <==> a[0] % 2 == 1
  {
    var n: seq<int> := a;
    var rest := 0x80 * n[1] + 0x8000 * n[2] + 0x80_0000 * n[3] + 0x8000_0000 * n[4] + 0x80_0000_0000 * n[5];
    assert AddressOf(a) == n[0] + 2 * rest;
  }

  /* ----- What the TX ports ask for, without tables ----- */

  predicate Registered(p: TxPort, vid: Vid) {
    p.vid == vid && p.mac != 0
  }

  /** What a lookup asks of a port: to be the default of a VID, or to own a MAC address in it. */
  datatype Query = Default(vid: Vid) | Exact(vid: Vid, dst: MacKey)

  predicate Meets(p: TxPort, q: Query) {
    match q
    case Default(vid) => p.vid == vid && p.mac == CLS_DUMMY_ADDR
    case Exact(vid, dst) => Registered(p, vid) && p.mac != CLS_DUMMY_ADDR && p.mac % MAC_SPACE == dst
  }

  /** `r` is the last of the first `n` ports that meets `q`, or -1 if none does. */
  ghost predicate LastSuch(ports: seq<TxPort>, n: nat, q: Query, r: int)
    requires n <= |ports|
  {
    && -1 <= r < n
    && (r >= 0 ==> Meets(ports[r], q))
    && forall i :: r < i < n ==> !Meets(ports[i], q)
  }

  ghost predicate HasRegistered(ports: seq<TxPort>, n: nat, vid: Vid)
    requires n <= |ports|
  {
    exists i :: 0 <= i < n && Registered(ports[i], vid)
  }

  /** The indexes of the ports of a VID, in order. */
  ghost function Members(ports: seq<TxPort>, n: nat, vid: Vid): (s: seq<nat>)
    requires n <= |ports|
    ensures forall k :: 0 <= k < |s| ==> s[k] < n && Registered(ports[s[k]], vid)
  {
    if n == 0 then []
    else if Registered(ports[n-1], vid) then Members(ports, n-1, vid) + [n-1]
    else Members(ports, n-1, vid)
  }

  /* Members lists every port of the VID, and each once. */
  lemma {:induction false} MembersComplete(ports: seq<TxPort>, n: nat, vid: Vid)
    requires n <= |ports|
    ensures var s := Members(ports, n, vid);
            && (forall i, j :: 0 <= i < j < |s| ==> s[i] < s[j])
            && (forall i :: 0 <= i < n && Registered(ports[i], vid) ==> i in s)
            && (s != [] <==> HasRegistered(ports, n, vid))
  {
    if n > 0 {
      MembersComplete(ports, n-1, vid);
    }
    var s := Members(ports, n, vid);
    assert s != [] ==> Registered(ports[s[0]], vid);
  }

  /* ----- Building the tables ----- */

  const NEW_CLASSIFIER := MacClassifier(map[], [], -1)

  /** One iteration of the TX loop of `init_component_info`, when nothing fails. */
  function Register(t: Tables, p: TxPort, i: nat): Tables {
    if p.mac == 0 then t
    else
      var c := if p.vid in t then t[p.vid] else NEW_CLASSIFIER;
      var c := c.(ports := c.ports + [i]);
      t[p.vid := if p.mac == CLS_DUMMY_ADDR then c.(def := i)
                 else c.(tbl := c.tbl[p.mac % MAC_SPACE := i])]
  }

  /** The tables after the first `n` ports, starting from tables `t`. */
  function BuildFrom(t: Tables, ports: seq<TxPort>, n: nat): Tables
    requires n <= |ports|
  {
    if n == 0 then t else Register(BuildFrom(t, ports, n-1), ports[n-1], n-1)
  }

  function Build(ports: seq<TxPort>): Tables {
    BuildFrom(map[], ports, |ports|)
  }

  /** What the tables of one VID say to a query; -1 is "no entry". */
  function Answer(c: MacClassifier, q: Query): int {
    match q
    case Default(_) => c.def
    case Exact(_, dst) => if dst in c.tbl then c.tbl[dst] else -1
  }

  lemma {:induction false} BuildMembers(ports: seq<TxPort>, n: nat, vid: Vid)
    requires n <= |ports|
    ensures var t := BuildFrom(map[], ports, n);
            && (vid in t <==> Members(ports, n, vid) != [])
            && (vid in t ==> t[vid].ports == Members(ports, n, vid))
  {
    if n > 0 {
      BuildMembers(ports, n-1, vid);
    }
  }

  lemma {:induction false} BuildAnswers(ports: seq<TxPort>, n: nat, q: Query)
    requires n <= |ports|
    ensures var t := BuildFrom(map[], ports, n);
            LastSuch(ports, n, q, if q.vid in t then Answer(t[q.vid], q) else -1)
  {
    if n > 0 {
      BuildAnswers(ports, n-1, q);
    }
  }

  /* ----- Looking a packet up ----- */

  /** Result of a lookup that means "hand the packet to the multicast fan-out". */
  const MULTICAST := -2

  function GeneralDefault(t: Tables): int {
    if VLAN_UNTAGGED_VID in t then t[VLAN_UNTAGGED_VID].def else -1
  }

  function SelectIndex(t: Tables, vid: Vid, dst: MacKey): int {
    if vid !in t then GeneralDefault(t)
    else if dst in t[vid].tbl then t[vid].tbl[dst]
    else if IsMulticast(dst) then MULTICAST
    else if t[vid].def < 0 && vid != VLAN_UNTAGGED_VID then GeneralDefault(t)
    else t[vid].def
  }

  /** The ports a multicast packet is pushed to, in order. */
  function Fanout(t: Tables, vid: Vid): seq<int> {
    var general := GeneralDefault(t);
    if vid !in t || t[vid].ports == [] then
      if general < 0 then [] else [general]
    else
      t[vid].ports + if general >= 0 && vid != VLAN_UNTAGGED_VID then [general] else []
  }

  /** The ports a packet is pushed to, in order; none means it is dropped. */
  function Destinations(t: Tables, h: Header): seq<int> {
    var r := SelectIndex(t, GetVid(h), h.dst);
    if r >= 0 then [r] else if r == MULTICAST then Fanout(t, GetVid(h)) else []
  }

  /** The answer of a linear scan over the TX ports, with no table at all. */
  ghost predicate ScanResult(ports: seq<TxPort>, vid: Vid, dst: MacKey, r: int) {
    var n := |ports|;
    if !LastSuch(ports, n, Exact(vid, dst), -1) then LastSuch(ports, n, Exact(vid, dst), r)
    else if HasRegistered(ports, n, vid) && IsMulticast(dst) then r == MULTICAST
    else if !LastSuch(ports, n, Default(vid), -1) then LastSuch(ports, n, Default(vid), r)
    else LastSuch(ports, n, Default(VLAN_UNTAGGED_VID), r)
  }

  /* The tables give the answer of the scan, and no other, for every configuration,
     VID and destination. */
  lemma LookupIsScan(ports: seq<TxPort>, vid: Vid, dst: MacKey)
    ensures forall r :: ScanResult(ports, vid, dst, r) <==> r == SelectIndex(Build(ports), vid, dst)
  {
    BuildMembers(ports, |ports|, vid);
    MembersComplete(ports, |ports|, vid);
    BuildAnswers(ports, |ports|, Exact(vid, dst));
    BuildAnswers(ports, |ports|, Default(vid));
    BuildAnswers(ports, |ports|, Default(VLAN_UNTAGGED_VID));
  }

  /* A multicast packet goes once to each port of its VID, and once to the untagged
     default when the VID is a tagged one and such a default exists. */
  lemma FanoutIsOnePerPort(ports: seq<TxPort>, vid: Vid)
    requires HasRegistered(ports, |ports|, vid)
    ensures var f := Fanout(Build(ports), vid);
            && f != [] && Distinct(f)
            && (forall i :: i in f ==> 0 <= i < |ports|)
            && (forall i :: 0 <= i < |ports| ==>
                  (i in f <==> || Registered(ports[i], vid)
                               || (vid != VLAN_UNTAGGED_VID
                                   && LastSuch(ports, |ports|, Default(VLAN_UNTAGGED_VID), i))))
  {
    var n := |ports|;
    var f, m := Fanout(Build(ports), vid), Members(ports, n, vid);
    BuildMembers(ports, n, vid);
    MembersComplete(ports, n, vid);
    BuildAnswers(ports, n, Default(VLAN_UNTAGGED_VID));
    var general := GeneralDefault(Build(ports));
    forall i | LastSuch(ports, n, Default(VLAN_UNTAGGED_VID), i) && i >= 0 ensures i == general {
      assert Meets(ports[i], Default(VLAN_UNTAGGED_VID));
      assert general >= 0 ==> Meets(ports[general], Default(VLAN_UNTAGGED_VID));
    }
    assert m != [];
    assert f == m + if general >= 0 && vid != VLAN_UNTAGGED_VID then [general] else [];
    assert general >= 0 && vid != VLAN_UNTAGGED_VID ==> !Registered(ports[general], vid);
  }

  lemma DestinationsInRange(ports: seq<TxPort>, h: Header)
    ensures var d := Destinations(Build(ports), h);
            Distinct(d) && forall k :: 0 <= k < |d| ==> 0 <= d[k] < |ports|
  {
    var vid := GetVid(h);
    var r := SelectIndex(Build(ports), vid, h.dst);
    LookupIsScan(ports, vid, h.dst);
    assert ScanResult(ports, vid, h.dst, r);
    if r == MULTICAST {
      FanoutIsOnePerPort(ports, vid);
      var f := Fanout(Build(ports), vid);
      assert forall k :: 0 <= k < |f| ==> f[k] in f;
    }
  }

  /** The last port that meets a query, or -1. */
  ghost function Last(ports: seq<TxPort>, n: nat, q: Query): (r: int)
    requires n <= |ports|
    ensures LastSuch(ports, n, q, r)
  {
    if n == 0 then -1 else if Meets(ports[n-1], q) then n - 1 else Last(ports, n - 1, q)
  }

  lemma LastIsUnique(ports: seq<TxPort>, q: Query, r: int)
    requires LastSuch(ports, |ports|, q, r)
    ensures r == Last(ports, |ports|, q)
  {
    var l := Last(ports, |ports|, q);
    assert l >= 0 ==> Meets(ports[l], q);
    assert r >= 0 ==> Meets(ports[r], q);
  }

  /** Where a packet is to go, by the TX ports alone. The last port that asks for its address
      gets it. Otherwise a packet to a group goes to every port of its VID, and to the untagged
      default if the VID is not the untagged one. Any other packet goes to the default of its
      VID, or else to the untagged default, or nowhere. */
  ghost function Route(ports: seq<TxPort>, vid: Vid, dst: MacKey, group: bool): seq<int> {
    var n := |ports|;
    var exact, own := Last(ports, n, Exact(vid, dst)), Last(ports, n, Default(vid));
    var general := Last(ports, n, Default(VLAN_UNTAGGED_VID));
    if exact >= 0 then [exact]
    else if group && HasRegistered(ports, n, vid) then
      Members(ports, n, vid) + if general >= 0 && vid != VLAN_UNTAGGED_VID then [general] else []
    else if own >= 0 then [own]
    else if general >= 0 then [general]
    else []
  }

  /* For every configuration and every header, the tables send a packet where the ports want it. */
  lemma DestinationsAreRoute(ports: seq<TxPort>, h: Header)
    ensures Destinations(Build(ports), h) == Route(ports, GetVid(h), h.dst, IsMulticast(h.dst))
  {
    var n, vid := |ports|, GetVid(h);
    var r := SelectIndex(Build(ports), vid, h.dst);
    LookupIsScan(ports, vid, h.dst);
    assert ScanResult(ports, vid, h.dst, r);
    BuildMembers(ports, n, vid);
    MembersComplete(ports, n, vid);
    BuildAnswers(ports, n, Default(VLAN_UNTAGGED_VID));
    LastIsUnique(ports, Default(VLAN_UNTAGGED_VID), GeneralDefault(Build(ports)));
    if r != MULTICAST {
      ScanIsLast(ports, vid, h.dst, r);
    } else {
      MulticastIsScan(ports, vid, h.dst);
    }
  }

  lemma ScanIsLast(ports: seq<TxPort>, vid: Vid, dst: MacKey, r: int)
    requires ScanResult(ports, vid, dst, r) && r != MULTICAST
    ensures Route(ports, vid, dst, IsMulticast(dst)) == if r >= 0 then [r] else []
  {
    var n := |ports|;
    hide LastSuch;
    NoneIsLast(ports, Exact(vid, dst));
    NoneIsLast(ports, Default(vid));
    if Last(ports, n, Exact(vid, dst)) >= 0 {
      LastIsUnique(ports, Exact(vid, dst), r);
    } else if Last(ports, n, Default(vid)) >= 0 {
      LastIsUnique(ports, Default(vid), r);
    } else {
      LastIsUnique(ports, Default(VLAN_UNTAGGED_VID), r);
    }
  }

  lemma NoneIsLast(ports: seq<TxPort>, q: Query)
    ensures LastSuch(ports, |ports|, q, -1) <==> Last(ports, |ports|, q) < 0
  {
  }

  lemma MulticastIsScan(ports: seq<TxPort>, vid: Vid, dst: MacKey)
    requires ScanResult(ports, vid, dst, MULTICAST)
    ensures IsMulticast(dst) && HasRegistered(ports, |ports|, vid) && Last(ports, |ports|, Exact(vid, dst)) < 0
  {
    NoneIsLast(ports, Exact(vid, dst));
  }

  /* The same for frames, octet by octet: tagged or not, to a station or to a group. */
  lemma FrameIsRouted(ports: seq<TxPort>, dst: seq<Octet>, src: seq<Octet>, g: Tagging,
                      etherType: seq<Octet>, rest: seq<Octet>)
    requires Proper(dst, src, g, etherType)
    ensures Destinations(Build(ports), HeaderOf(Frame(dst, src, g, etherType, rest)))
         == Route(ports, if g.Tagged? then g.vid else 0xfff, AddressOf(dst), dst[0] % 2 == 1)
  {
    hide Destinations, Route, Build;
    HeaderOfFrame(dst, src, g, etherType, rest);
    DestinationsAreRoute(ports, HeaderOf(Frame(dst, src, g, etherType, rest)));
  }

  /* ----- Ports that are there ----- */

  /** The tables name only the first `n` ports. */
  predicate Within(t: Tables, n: nat) {
    forall vid :: vid in t ==>
      && -1 <= t[vid].def < n
      && (forall k :: 0 <= k < |t[vid].ports| ==> t[vid].ports[k] < n)
      && forall dst :: dst in t[vid].tbl ==> t[vid].tbl[dst] < n
  }

  predicate InRange(dests: seq<int>, n: nat) {
    forall k :: 0 <= k < |dests| ==> 0 <= dests[k] < n
  }

  /* Tables that name only existing ports, left over or not, send every packet to existing ports. */
  lemma WithinIsRouted(t: Tables, n: nat, h: Header)
    requires Within(t, n)
    ensures InRange(Destinations(t, h), n)
  {
  }

  lemma RegisterWithin(t: Tables, p: TxPort, i: nat, n: nat)
    requires Within(t, n) && i < n
    ensures Within(Register(t, p, i), n)
  {
  }

  lemma {:induction false} BuildFromWithin(t: Tables, ports: seq<TxPort>, k: nat, n: nat)
    requires Within(t, n) && k <= |ports| && k <= n
    ensures Within(BuildFrom(t, ports, k), n)
  {
    hide Within, Register;
    if k > 0 {
      BuildFromWithin(t, ports, k - 1, n);
      RegisterWithin(BuildFrom(t, ports, k - 1), ports[k-1], k - 1, n);
    }
  }

  /* ----- Building on a side that was not wiped ----- */

  lemma {:induction false} BuildFromAppends(t: Tables, ports: seq<TxPort>, n: nat, vid: Vid)
    requires n <= |ports| && vid in t
    ensures vid in BuildFrom(t, ports, n)
    ensures BuildFrom(t, ports, n)[vid].ports == t[vid].ports + Members(ports, n, vid)
  {
    if n > 0 {
      BuildFromAppends(t, ports, n-1, vid);
    }
  }

  /** Tables left behind by an interrupted build: a VID is entered together with its first port. */
  ghost predicate Populated(t: Tables) {
    forall vid :: vid in t ==> t[vid].ports != []
  }

  lemma {:induction false} BuildIsPopulated(t: Tables, ports: seq<TxPort>, n: nat)
    requires n <= |ports| && Populated(t)
    ensures Populated(BuildFrom(t, ports, n))
  {
    if n > 0 {
      BuildIsPopulated(t, ports, n-1);
    }
  }

  /* Building over left-over tables gives the right tables exactly when nothing was left over. */
  lemma BuildNeedsWipedSide(t: Tables, ports: seq<TxPort>)
    requires Populated(t)
    ensures BuildFrom(t, ports, |ports|) == Build(ports) <==> t == map[]
  {
    if t != map[] {
      var vid :| vid in t;
      BuildFromAppends(t, ports, |ports|, vid);
      BuildMembers(ports, |ports|, vid);
      assert |BuildFrom(t, ports, |ports|)[vid].ports| > |Members(ports, |ports|, vid)|;
    }
  }

  /** The tables when the MAC entry of port `i` could not be added: the port is listed already. */
  function LeftOver(t: Tables, p: TxPort, i: nat): Tables {
    var c := if p.vid in t then t[p.vid] else NEW_CLASSIFIER;
    t[p.vid := c.(ports := c.ports + [i])]
  }

  /* Concretely: when adding the MAC entry of the only port fails and the same update is tried
     again on the side as it was left, the tables name only that port, but a multicast packet
     is pushed to it twice. */
  lemma RetryOnLeftOverPushesTwice(p: TxPort)
    requires p.mac != 0 && p.mac != CLS_DUMMY_ADDR
    ensures var t := Register(LeftOver(map[], p, 0), p, 0);
            Within(t, 1) && Fanout(t, p.vid) == [0, 0]
  {
    var left := LeftOver(map[], p, 0);
    assert left[p.vid] == MacClassifier(map[], [0], -1);
    var t := Register(left, p, 0);
    assert t[p.vid] == MacClassifier(map[p.mac % MAC_SPACE := 0], [0, 0], -1);
    assert t.Keys == {p.vid};
  }

  /* Concretely: when the MAC entry of the second of two ports of a VID fails and an update with
     the first port alone follows, the tables send a multicast packet to the second port too. */
  lemma LeftOverNamesMissingPort(p: TxPort, q: TxPort, h: Header)
    requires p.mac != 0 && p.mac != CLS_DUMMY_ADDR && p.vid == q.vid == GetVid(h)
    requires IsMulticast(h.dst) && h.dst != p.mac % MAC_SPACE
    ensures var t := Register(LeftOver(Register(map[], p, 0), q, 1), p, 0);
            var d := Destinations(t, h);
            !Within(t, 1) && |d| >= 2 && d[0] == 0 && d[1] == 1
  {
    var a := Register(map[], p, 0);
    assert a[p.vid] == MacClassifier(map[p.mac % MAC_SPACE := 0], [0], -1);
    var b := LeftOver(a, q, 1);
    assert b[p.vid] == MacClassifier(map[p.mac % MAC_SPACE := 0], [0, 1], -1);
    var t := Register(b, p, 0);
    assert t[p.vid].ports == [0, 1, 0] && t[p.vid].tbl.Keys == {p.mac % MAC_SPACE};
    assert t[p.vid].ports[1] == 1;
  }
}
