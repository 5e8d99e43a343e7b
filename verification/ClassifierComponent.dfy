/** The sequential code of the classifier: one side and its TX buffers, updated in place. */
module ClassifierComponent {
  import opened ClassifierTable
  import opened ClassifierProtocol

  /** Reference counts of the mbufs, and the references the driver holds. */
  class Mbufs {
    var refs: multiset<Packet>
    var fault: bool
    ghost var nic: multiset<Packet>
    ghost var rejected: bool   // the VLAN operation of a TX port rejected a packet

    method Free(p: Packet)
      modifies `refs, `fault
      ensures refs == old(refs) - multiset{p}
      ensures fault == (old(fault) || p !in old(refs))
    {
      if p in refs {
        refs := refs - multiset{p};
      } else {
        fault := true;
      }
    }

    method FreeSlots(pkts: array<Packet>, lo: nat, hi: nat)
      requires lo <= hi <= pkts.Length
      modifies `refs, `fault
      ensures refs == old(refs) - multiset(pkts[lo..hi])
      ensures fault == (old(fault) || !(multiset(pkts[lo..hi]) <= old(refs)))
    {
      for k := lo to hi
        invariant refs == old(refs) - multiset(pkts[lo..k])
        invariant fault == (old(fault) || !(multiset(pkts[lo..k]) <= old(refs)))
      {
        assert pkts[lo..k+1] == pkts[lo..k] + [pkts[k]];
        FreeOneMore(old(refs), multiset(pkts[lo..k]), pkts[k]);
        Free(pkts[k]);
      }
    }
  }

  lemma FreeOneMore(refs: multiset<Packet>, freed: multiset<Packet>, p: Packet)
    ensures refs - freed - multiset{p} == refs - (freed + multiset{p})
    ensures freed + multiset{p} <= refs <==> freed <= refs && p in refs - freed
  {
    var more := freed + multiset{p};
    assert forall q :: more[q] == freed[q] + multiset{p}[q];
    assert freed <= refs ==> (refs - freed)[p] == refs[p] - freed[p];
  }

  /** TX buffer of one port (`struct cls_port_info`). */
  class TxBuffer {
    const pkts: array<Packet>
    var nofPkts: nat

    constructor (filler: Packet)
      ensures Valid() && Contents() == [] && fresh(pkts)
    {
      pkts := new Packet[MAX_PKT_BURST](_ => filler);
      nofPkts := 0;
    }

    ghost predicate Valid()
      reads this
    {
      nofPkts <= pkts.Length == MAX_PKT_BURST
    }

    ghost function Contents(): seq<Packet>
      requires Valid()
      reads this, pkts
    {
      pkts[..nofPkts]
    }

    /* Frees the packets from index `k` on. */
    method FreeFrom(mb: Mbufs, k: nat)
      requires Valid() && k <= nofPkts
      modifies mb`refs, mb`fault
      ensures var rest := multiset(Contents()[k..]);
              && mb.refs == old(mb.refs) - rest
              && mb.fault == (old(mb.fault) || !(rest <= old(mb.refs)))
    {
      assert pkts[..nofPkts][k..] == pkts[k..nofPkts];
      mb.FreeSlots(pkts, k, nofPkts);
    }

    /* The VLAN operation processes the first `ok` packets, the driver takes the first `sent` of
       these. The VLAN operation frees the packets it rejects, and so does the caller. */
    method Transmit(mb: Mbufs) returns (ok: nat, sent: nat)
      requires Valid()
      modifies mb, this
      ensures Valid() && Contents() == []
      ensures sent <= ok <= |old(Contents())| && mb.rejected == (old(mb.rejected) || ok < |old(Contents())|)
      ensures mb.nic == old(mb.nic) + multiset(old(Contents())[..sent])
      ensures var out, rest := multiset(old(Contents())[ok..]), multiset(old(Contents())[sent..]);
              && mb.refs == old(mb.refs) - out - rest
              && mb.fault == (old(mb.fault) || !(out <= old(mb.refs)) || !(rest <= old(mb.refs) - out))
    {
      ok, sent :| 0 <= sent <= ok <= nofPkts;
      mb.rejected := mb.rejected || ok < nofPkts;
      FreeFrom(mb, ok);
      mb.nic := mb.nic + multiset(Contents()[..sent]);
      FreeFrom(mb, sent);
      nofPkts := 0;
    }

    method Store(p: Packet)
      requires Valid() && nofPkts < MAX_PKT_BURST
      modifies this, pkts
      ensures Valid() && Contents() == old(Contents()) + [p]
    {
      pkts[nofPkts] := p;
      nofPkts := nofPkts + 1;
    }
  }

  /** Outcomes of creating the table of a VID and of adding an entry to it. */
  datatype HashCalls = HashCalls(create: bool, add: bool)

  /** One side of the classifier (`struct cls_comp_info`). */
  class CompInfo {
    var rxUndef: bool
    var entry: bool
    var macClfs: Tables
    var nofTx: nat
    const ports: seq<TxBuffer>
    ghost var pushed: seq<(int, Packet)>   // every push so far

    ghost predicate Valid()
      reads this, ports
    {
      && nofTx <= |ports|
      && (forall i :: 0 <= i < |ports| ==> ports[i].Valid())
      && forall i, j :: 0 <= i < j < |ports| ==> ports[i] != ports[j] && ports[i].pkts != ports[j].pkts
    }

    /** The contents of the first `n` TX buffers. */
    ghost function Bufs(n: nat): (b: seq<seq<Packet>>)
      requires n <= |ports| && forall i :: 0 <= i < |ports| ==> ports[i].Valid()
      reads this, ports, set p | p in ports :: p.pkts
      ensures |b| == n && forall i :: 0 <= i < n ==> b[i] == ports[i].Contents()
    {
      if n == 0 then [] else Bufs(n-1) + [ports[n-1].Contents()]
    }

    /** This side and the references, as the run model sees them; the other side is empty. */
    ghost function View(mb: Mbufs): Packets
      requires Valid()
      reads this, ports, set p | p in ports :: p.pkts, mb
    {
      Packets([Bufs(nofTx), []], mb.refs, mb.nic, mb.fault)
    }

    /* Changing one TX buffer changes one entry. */
    lemma BufsSet(was: seq<seq<Packet>>, i: nat)
      requires Valid() && i < nofTx == |was|
      requires forall k :: 0 <= k < nofTx && k != i ==> ports[k].Contents() == was[k]
      ensures Bufs(nofTx) == was[i := ports[i].Contents()]
    {
    }

    method TransmitPackets(mb: Mbufs, i: nat) returns (ok: nat, sent: nat)
      requires Valid() && i < nofTx
      modifies mb, ports[i]
      ensures Valid() && sent <= ok <= |old(View(mb)).bufs[0][i]|
      ensures View(mb) == TransmitTagged(old(View(mb)), 0, i, ok, sent)
      ensures mb.rejected == (old(mb.rejected) || ok < |old(View(mb)).bufs[0][i]|)
    {
      ghost var x := View(mb);
      hide TransmitTagged;
      ok, sent := ports[i].Transmit(mb);
      BufsSet(x.bufs[0], i);
      TransmittedIs(x, View(mb), i, ok, sent);
    }

    method StorePacket(mb: Mbufs, p: Packet, i: nat)
      requires Valid() && i < nofTx && ports[i].nofPkts < MAX_PKT_BURST
      modifies `pushed, ports[i], ports[i].pkts
      ensures Valid() && pushed == old(pushed) + [(i, p)] && ports[i].nofPkts == old(ports[i].nofPkts) + 1
      ensures View(mb) == SetBuf(old(View(mb)), 0, i, old(View(mb)).bufs[0][i] + [p])
    {
      ghost var was := Bufs(nofTx);
      ports[i].Store(p);
      pushed := pushed + [(i, p)];
      BufsSet(was, i);
    }

    method PushPacket(mb: Mbufs, p: Packet, i: nat) returns (ok: nat, sent: nat)
      requires Valid() && i < nofTx && ports[i].nofPkts < MAX_PKT_BURST
      modifies mb, `pushed, ports[i], ports[i].pkts
      ensures Valid() && sent <= ok <= MAX_PKT_BURST && pushed == old(pushed) + [(i, p)]
      ensures View(mb) == PushTagged(old(View(mb)), 0, i, p, ok, sent)
      ensures var b := old(ports[i].Contents()) + [p];
              if |b| < 32 then ports[i].Contents() == b && unchanged(mb)
              else
                && ports[i].Contents() == [] && mb.nic == old(mb.nic) + multiset(b[..sent])
                && mb.rejected == (old(mb.rejected) || ok < |b|)
    {
      StorePacket(mb, p, i);
      assert ports[i].Contents() == old(ports[i].Contents()) + [p];
      hide TransmitTagged, SetBuf;
      ok, sent := 0, 0;
      if ports[i].nofPkts == MAX_PKT_BURST {
        ok, sent := TransmitPackets(mb, i);
      }
    }

    ghost function Slots(): set<array<Packet>> {
      set b | b in ports :: b.pkts
    }

    /** References are conserved, counting the `pending` ones, exactly if no packet was
        rejected; and no TX buffer is full. */
    ghost predicate InOrder(mb: Mbufs, pending: multiset<Packet>)
      requires Valid()
      reads this, ports, Slots(), mb
    {
      Settled(View(mb), pending, mb.rejected) && BelowBurst(View(mb))
    }

    /* Pushing one pending copy keeps things in order. */
    method PushPending(mb: Mbufs, p: Packet, i: nat, ghost pending: multiset<Packet>)
      requires Valid() && i < nofTx && InOrder(mb, pending + multiset{p})
      modifies mb, `pushed, ports, Slots()
      ensures Valid() && InOrder(mb, pending) && pushed == old(pushed) + [(i, p)]
    {
      hide Settled, PushTagged;
      ghost var x, was := View(mb), mb.rejected;
      assert |x.bufs[0][i]| < MAX_PKT_BURST;
      var ok, sent := PushPacket(mb, p, i);
      PushSettles(x, 0, i, p, ok, sent, pending, was, mb.rejected);
      PushIsBelow(x, 0, i, p, ok, sent);
    }

    /* One turn of the loop of TransmitAllPacket. */
    method DrainPort(mb: Mbufs, i: nat, ghost pending: multiset<Packet>)
      requires Valid() && i < nofTx && InOrder(mb, pending)
      modifies mb, ports[i]
      ensures Valid() && InOrder(mb, pending) && Bufs(nofTx) == old(Bufs(nofTx))[i := []]
    {
      hide Settled, TransmitTagged;
      if ports[i].nofPkts != 0 {
        ghost var x, was := View(mb), mb.rejected;
        var ok, sent := TransmitPackets(mb, i);
        TaggedSettles(x, 0, i, ok, sent, pending, was, mb.rejected);
        TaggedEmpties(x, 0, i, ok, sent);
      } else {
        assert Bufs(nofTx)[i] == [];
      }
    }

    method TransmitAllPacket(mb: Mbufs, ghost pending: multiset<Packet>)
      requires Valid() && InOrder(mb, pending)
      modifies mb, ports
      ensures Valid() && InOrder(mb, pending) && Quiet(Bufs(nofTx), nofTx)
    {
      hide InOrder, Quiet;
      QuietNone(Bufs(nofTx));
      for i := 0 to nofTx
        invariant Valid() && InOrder(mb, pending) && Quiet(Bufs(nofTx), i)
      {
        QuietMore(Bufs(nofTx), i);
        DrainPort(mb, i, pending);
      }
    }

    method PushToPorts(mb: Mbufs, p: Packet, ps: seq<nat>, ghost pending: multiset<Packet>)
      requires Valid() && InRange(ps, nofTx) && InOrder(mb, pending + Copies(p, |ps|))
      modifies mb, `pushed, ports, Slots()
      ensures Valid() && InOrder(mb, pending) && pushed == old(pushed) + Pushes(ps, p)
    {
      hide InOrder, Valid;
      for i := 0 to |ps|
        invariant Valid() && InOrder(mb, pending + Copies(p, |ps| - i))
        invariant pushed == old(pushed) + Pushes(ps[..i], p)
      {
        assert ps[..i+1] == ps[..i] + [ps[i]];
        PushesMore(ps[..i], ps[i], p);
        assert pending + Copies(p, |ps| - i) == pending + Copies(p, |ps| - (i + 1)) + multiset{p};
        PushPending(mb, p, ps[i], pending + Copies(p, |ps| - (i + 1)));
      }
      assert ps[..|ps|] == ps && pending + Copies(p, 0) == pending;
    }

    method HandleL2Multicast(mb: Mbufs, p: Packet, ghost pending: multiset<Packet>)
      requires Valid() && InOrder(mb, pending + multiset{p}) && InRange(Fanout(macClfs, GetVid(p.h)), nofTx)
      modifies mb, `pushed, ports, Slots()
      ensures Valid() && InOrder(mb, pending)
      ensures pushed == old(pushed) + Pushes(Fanout(macClfs, GetVid(p.h)), p)
    {
      hide InOrder, Valid, Pushes;
      var vid := GetVid(p.h);
      var general := GeneralDefault(macClfs);
      ghost var f := Fanout(macClfs, vid);
      if vid !in macClfs || |macClfs[vid].ports| == 0 {
        if general < 0 {
          PushesNone(p);
          FreePending(mb, p, pending);
        } else {
          assert f == [] + [general] && f[0] == general;
          PushesNone(p);
          PushesMore([], general, p);
          PushPending(mb, p, general, pending);
        }
      } else {
        var own := macClfs[vid].ports;
        assert forall k :: 0 <= k < |own| ==> f[k] == own[k];
        if general >= 0 && vid != VLAN_UNTAGGED_VID {
          assert f == own + [general] && f[|own|] == general;
          PushesMore(own, general, p);
          PushToVidAndDefault(mb, p, own, general, pending);
        } else {
          assert f == own;
          AddReferences(mb, p, |own|, pending);
          PushToPorts(mb, p, own, pending);
        }
      }
    }

    method PushToVidAndDefault(mb: Mbufs, p: Packet, own: seq<nat>, general: nat,
                               ghost pending: multiset<Packet>)
      requires Valid() && InRange(own, nofTx) && general < nofTx && InOrder(mb, pending + multiset{p})
      modifies mb, `pushed, ports, Slots()
      ensures Valid() && InOrder(mb, pending) && pushed == old(pushed) + Pushes(own, p) + [(general, p)]
    {
      hide InOrder, Valid;
      AddReferences(mb, p, |own| + 1, pending);
      assert pending + Copies(p, |own| + 1) == pending + multiset{p} + Copies(p, |own|);
      PushToPorts(mb, p, own, pending + multiset{p});
      PushPending(mb, p, general, pending);
    }

    method ClassifyPackets(mb: Mbufs, rx: seq<Packet>, ghost cfg: seq<TxPort>)
      requires Valid() && macClfs == Build(cfg) && nofTx == |cfg| && InOrder(mb, multiset(rx))
      modifies mb, `pushed, ports, Slots()
      ensures Valid() && InOrder(mb, multiset{}) && pushed == old(pushed) + Routes(cfg, rx)
    {
      hide InOrder, Valid, Wanted, Pushes, Build;
      for k := 0 to |rx|
        invariant Valid() && InOrder(mb, multiset(rx[k..]))
        invariant pushed == old(pushed) + Routes(cfg, rx[..k])
      {
        assert rx[..k+1] == rx[..k] + [rx[k]];
        assert rx[k..] == [rx[k]] + rx[k+1..];
        assert multiset(rx[k..]) == multiset(rx[k+1..]) + multiset{rx[k]};
        ClassifyOne(mb, rx[k], cfg, multiset(rx[k+1..]));
      }
      assert rx[..|rx|] == rx && multiset(rx[|rx|..]) == multiset{};
    }

    method ClassifyOne(mb: Mbufs, p: Packet, ghost cfg: seq<TxPort>, ghost pending: multiset<Packet>)
      requires Valid() && macClfs == Build(cfg) && nofTx == |cfg| && InOrder(mb, pending + multiset{p})
      modifies mb, `pushed, ports, Slots()
      ensures Valid() && InOrder(mb, pending)
      ensures pushed == old(pushed) + Pushes(Wanted(cfg, p.h), p)
    {
      hide InOrder, Valid, Pushes, SelectIndex, Build, Route;
      DestinationsInRange(cfg, p.h);
      DestinationsAreRoute(cfg, p.h);
      PushesNone(p);
      var i := SelectIndex(macClfs, GetVid(p.h), p.h.dst);
      if i >= 0 {
        PushesMore([], i, p);
        assert Destinations(macClfs, p.h) == [] + [i] && Destinations(macClfs, p.h)[0] == i;
        PushPending(mb, p, i, pending);
      } else if i == -1 {
        FreePending(mb, p, pending);
      } else if i == -2 {
        HandleL2Multicast(mb, p, pending);
      } else {
        SelectIsDefined(cfg, p.h);
        assert false;
      }
    }

    method FreePending(mb: Mbufs, p: Packet, ghost pending: multiset<Packet>)
      requires Valid() && InOrder(mb, pending + multiset{p})
      modifies mb
      ensures Valid() && InOrder(mb, pending)
    {
      hide Settled;
      ghost var x := View(mb);
      mb.Free(p);
      assert multiset([p]) == multiset{p};
      DropSettles(x, p, pending, mb.rejected);
    }

    /* The table part of one turn of the loop of InitComponentInfo. */
    method RegisterPort(p: TxPort, i: nat, calls: HashCalls) returns (ok: bool)
      requires p.mac != 0
      modifies `entry, `macClfs
      ensures ok == ((p.vid in old(macClfs) || calls.create) && (p.mac == CLS_DUMMY_ADDR || calls.add))
      ensures ok ==> macClfs == Register(old(macClfs), p, i) && entry
      ensures !ok && (p.vid in old(macClfs) || calls.create) ==>
                macClfs == LeftOver(old(macClfs), p, i) && entry
      ensures !ok && p.vid !in old(macClfs) && !calls.create ==> macClfs == old(macClfs) && entry == old(entry)
    {
      var c := NEW_CLASSIFIER;
      if p.vid in macClfs {
        c := macClfs[p.vid];
      } else if !calls.create {
        return false;
      }
      c := c.(ports := c.ports + [i]);
      macClfs := macClfs[p.vid := c];
      entry := true;
      if p.mac == CLS_DUMMY_ADDR {
        macClfs := macClfs[p.vid := c.(def := i)];
        return true;
      }
      ok := calls.add;
      if ok {
        macClfs := macClfs[p.vid := c.(tbl := c.tbl[p.mac % MAC_SPACE := i])];
      }
    }

    method InitComponentInfo(txPorts: seq<TxPort>, undef: bool, calls: seq<HashCalls>) returns (ok: bool)
      requires Valid() && |txPorts| <= |ports| && |calls| == |txPorts|
      modifies `rxUndef, `entry, `macClfs, `nofTx, ports
      ensures Valid() && nofTx == |txPorts| && rxUndef == undef
      ensures (forall i :: 0 <= i < |calls| ==> calls[i].create && calls[i].add) ==> ok
      ensures ok ==> macClfs == BuildFrom(old(macClfs), txPorts, |txPorts|)
      ensures ok ==> (entry <==> exists i :: 0 <= i < |txPorts| && txPorts[i].mac != 0)
      ensures ok ==> Quiet(Bufs(nofTx), nofTx)
      ensures !ok ==> nofTx > 0 && (old(Populated(macClfs)) ==> Populated(macClfs))
    {
      rxUndef, nofTx, entry := undef, |txPorts|, false;
      for i := 0 to |txPorts|
        invariant Valid() && nofTx == |txPorts| && rxUndef == undef
        invariant macClfs == BuildFrom(old(macClfs), txPorts, i)
        invariant entry <==> exists k :: 0 <= k < i && txPorts[k].mac != 0
        invariant forall k :: 0 <= k < i ==> ports[k].nofPkts == 0
      {
        ports[i].nofPkts := 0;
        if txPorts[i].mac != 0 {
          ok := RegisterPort(txPorts[i], i, calls[i]);
          if !ok {
            if old(Populated(macClfs)) {
              BuildIsPopulated(old(macClfs), txPorts, i);
            }
            return;
          }
        }
      }
      ok := true;
    }

    method CleanComponentInfo()
      requires Valid()
      modifies `rxUndef, `entry, `macClfs, `nofTx, ports
      ensures Valid() && Side(rxUndef, entry, macClfs, nofTx) == WIPED
      ensures forall i :: 0 <= i < |ports| ==> ports[i].nofPkts == 0
    {
      rxUndef, entry, macClfs, nofTx := false, false, map[], 0;
      for i := 0 to |ports|
        modifies ports
        invariant Valid()
        invariant forall k :: 0 <= k < i ==> ports[k].nofPkts == 0
      {
        ports[i].nofPkts := 0;
      }
    }

    method AddReferences(mb: Mbufs, p: Packet, n: nat, ghost pending: multiset<Packet>)
      requires Valid() && n >= 1 && InOrder(mb, pending + multiset{p})
      modifies mb
      ensures Valid() && InOrder(mb, pending + Copies(p, n))
    {
      ghost var x := View(mb);
      mb.refs := mb.refs + Copies(p, n - 1);
      RefsSettle(x, View(mb), pending + multiset{p}, pending + Copies(p, n), mb.rejected);
    }

  }

  lemma TransmittedIs(x: Packets, y: Packets, i: nat, ok: nat, sent: nat)
    requires |x.bufs| == 2 && i < |x.bufs[0]| && sent <= ok <= |x.bufs[0][i]|
    requires y.bufs == [x.bufs[0][i := []], x.bufs[1]] && y.nic == x.nic + multiset(x.bufs[0][i][..sent])
    requires var out, rest := multiset(x.bufs[0][i][ok..]), multiset(x.bufs[0][i][sent..]);
             && y.refs == x.refs - out - rest
             && y.fault == (x.fault || !(out <= x.refs) || !(rest <= x.refs - out))
    ensures y == TransmitTagged(x, 0, i, ok, sent)
  {
  }

  lemma QuietNone(bufs: seq<seq<Packet>>)
    ensures Quiet(bufs, 0)
  {
  }

  lemma QuietMore(bufs: seq<seq<Packet>>, i: nat)
    requires i < |bufs| && Quiet(bufs, i)
    ensures Quiet(bufs[i := []], i + 1)
  {
  }

  ghost function Pushes(dests: seq<int>, p: Packet): seq<(int, Packet)> {
    if dests == [] then [] else Pushes(dests[..|dests|-1], p) + [(dests[|dests|-1], p)]
  }

  lemma PushesNone(p: Packet)
    ensures Pushes([], p) == []
  {
  }

  lemma PushesMore(dests: seq<int>, d: int, p: Packet)
    ensures Pushes(dests + [d], p) == Pushes(dests, p) + [(d, p)]
  {
    assert (dests + [d])[..|dests|] == dests;
  }

  /** Every push of a burst: each packet to the ports that want it, in order. */
  ghost function Routes(cfg: seq<TxPort>, rx: seq<Packet>): seq<(int, Packet)> {
    if rx == [] then []
    else
      var last := rx[|rx|-1];
      Routes(cfg, rx[..|rx|-1]) + Pushes(Wanted(cfg, last.h), last)
  }

  ghost function Wanted(cfg: seq<TxPort>, h: Header): seq<int> {
    Route(cfg, GetVid(h), h.dst, IsMulticast(h.dst))
  }

  lemma SelectIsDefined(cfg: seq<TxPort>, h: Header)
    ensures SelectIndex(Build(cfg), GetVid(h), h.dst) >= -2
  {
    var r := SelectIndex(Build(cfg), GetVid(h), h.dst);
    LookupIsScan(cfg, GetVid(h), h.dst);
    assert ScanResult(cfg, GetVid(h), h.dst, r);
  }
}
