/** Forwarder and merger components: how a path is built, and how packets go through it. */
module Forwarder {

  datatype Kind = Fwd | Mrg | Other

  /** A port, by its ethdev ID; it is negative while the port is not attached. */
  datatype Port = Port(no: nat, ethdev: int)

  datatype Component = Component(kind: Kind, rx: seq<Port>, tx: seq<Port>)

  /** `struct forward_path`: the pair of an index has an RX and a TX port. */
  datatype Path = Path(kind: Kind, nofRx: nat, nofTx: nat, rx: seq<Port>, tx: seq<Port>)

  const ZERO_PORT := Port(0, 0)

  /* ----- Building a path ----- */

  /** Storage of a path, of fixed size. */
  class PathBuffer {
    var kind: Kind
    var nofRx: nat
    var nofTx: nat
    const rx: array<Port>
    const tx: array<Port>

    constructor (size: nat)
      ensures rx.Length == tx.Length == size && rx != tx && fresh(rx) && fresh(tx)
      ensures nofRx == nofTx == 0
    {
      kind, nofRx, nofTx := Other, 0, 0;
      rx := new Port[size](_ => ZERO_PORT);
      tx := new Port[size](_ => ZERO_PORT);
    }

    ghost function View(): Path
      reads this, rx, tx
    {
      Path(kind, nofRx, nofTx, rx[..], tx[..])
    }

    /* `update_forwarder` up to the publication. */
    method UpdateForwarder(c: Component) returns (ok: bool)
      requires rx != tx && rx.Length == tx.Length && |c.rx| <= rx.Length && |c.tx| <= tx.Length
      modifies this, rx, tx
      ensures ok <==> !(c.kind.Fwd? && |c.rx| > 1) && |c.tx| <= 1
      ensures !ok ==> View() == old(View())
      ensures ok ==> kind == c.kind && nofRx == |c.rx| && nofTx == |c.tx|
      ensures ok ==> rx[..nofRx] == c.rx
      ensures ok && nofTx == 1 ==> tx[0] == c.tx[0] && (forall i :: 0 <= i < nofRx ==> tx[i] == c.tx[0])
      ensures ok && nofTx == 1 ==> SharesTx(View())
    {
      var max := if |c.rx| > |c.tx| then |c.rx| * |c.tx| else |c.tx|;
      if c.kind == Fwd && |c.rx| > 1 {
        return false;
      }
      if |c.tx| != 0 && |c.tx| != 1 {
        return false;
      }
      forall i | 0 <= i < rx.Length {
        rx[i] := ZERO_PORT;
      }
      forall i | 0 <= i < tx.Length {
        tx[i] := ZERO_PORT;
      }
      kind, nofRx, nofTx := c.kind, |c.rx|, |c.tx|;
      for i := 0 to |c.rx|
        modifies rx
        invariant rx[..i] == c.rx[..i]
      {
        rx[i] := c.rx[i];
      }
      assert rx[..nofRx] == c.rx;
      assert |c.tx| == 1 ==> |c.rx| <= max && 1 <= max;
      assert max <= tx.Length;
      for i := 0 to max
        modifies tx
        invariant |c.tx| == 1 ==> forall k :: 0 <= k < i ==> tx[k] == c.tx[0]
      {
        tx[i] := c.tx[0];
      }
      return true;
    }

    /* `forward_packets` after the index change. */
    method ForwardPackets<P>(bursts: seq<Burst<P>>) returns (t: Tally<P>)
      requires nofRx <= tx.Length && |bursts| == nofRx && Possible(bursts)
      ensures nofTx == 1 && (if kind.Mrg? then nofRx >= 1 else nofRx == 1) ==>
                t == Pass(tx[..], bursts, 0, 0, Nothing())
      ensures nofTx == 1 && (if kind.Mrg? then nofRx >= 1 else nofRx == 1) && SharesTx(View()) ==>
                && t.sent == Taken(tx[..], bursts, 0) && t.freed == Left(tx[..], bursts, 0)
                && (All(t) == Received(bursts, 0) <==> NoneRejected(tx[..], bursts))
      ensures nofTx != 1 || nofRx == 0 || (!kind.Mrg? && nofRx != 1) ==> t == Tally(multiset{}, multiset{})
    {
      hide Turn;
      t := Nothing();
      if kind == Mrg {
        if !(nofTx == 1 && nofRx >= 1) {
          return;
        }
      } else if !(nofTx == 1 && nofRx == 1) {
        return;
      }
      var nbTx := 0;
      for i := 0 to nofRx
        invariant Pass(tx[..], bursts, 0, 0, Nothing()) == Pass(tx[..], bursts, i, nbTx, t)
      {
        if |bursts[i].pkts| != 0 {
          nbTx, t := ForwardBurst(tx[i], bursts[i], nbTx, t);
        }
      }
      if SharesTx(View()) {
        BuiltPathConservesIff(View(), bursts);
        PassIsTakenAndLeft(tx[..], bursts);
      }
    }

    /* Frees the packets of a burst from index `from` on. */
    method FreeRest<P>(pkts: seq<P>, from: nat, freed: multiset<P>) returns (r: multiset<P>)
      requires from <= |pkts|
      ensures r == freed + multiset(pkts[from..])
    {
      r := freed;
      for k := from to |pkts|
        invariant r == freed + multiset(pkts[from..k])
      {
        assert pkts[from..k+1] == pkts[from..k] + [pkts[k]];
        r := r + multiset{pkts[k]};
      }
      assert pkts[from..|pkts|] == pkts[from..];
    }

    /* One turn of the loop of ForwardPackets. */
    method ForwardBurst<P>(port: Port, b: Burst<P>, count: nat, t: Tally<P>) returns (nbTx: nat, r: Tally<P>)
      requires b.accepted <= b.ok <= |b.pkts|
      ensures (nbTx, r) == Turn(port, b, count, t)
    {
      nbTx := count;
      var sent, freed := t.sent, t.freed;
      if port.ethdev >= 0 {
        freed := FreeRest(b.pkts, b.ok, freed);
        nbTx := b.accepted;
        sent := sent + multiset(b.pkts[..nbTx]);
      }
      if nbTx < |b.pkts| {
        freed := FreeRest(b.pkts, nbTx, freed);
      }
      r := Tally(sent, freed);
    }
  }

  /** A path every used index of which has the same TX port. */
  predicate SharesTx(p: Path) {
    && p.nofRx <= |p.rx| && p.nofRx <= |p.tx|
    && forall i, j :: 0 <= i < p.nofRx && 0 <= j < p.nofRx ==> p.tx[i] == p.tx[j]
  }

  /* ----- Forwarding ----- */

  /** What became of the packets of a pass. */
  datatype Tally<P> = Tally(sent: multiset<P>, freed: multiset<P>)

  /** Outcome of a pass at one index: the packets received, how many of them the VLAN
      operation of the TX port processes, and how many of those the TX burst takes. */
  datatype Burst<P> = Burst(pkts: seq<P>, ok: nat, accepted: nat)

  /** One turn of the loop of `forward_packets`, with packets received: the new count `nb_tx`,
      which the old one stands in for when the TX port is not attached, and the tally. The
      VLAN operation frees the packets it does not process, and the loop frees what is left. */
  function Turn<P>(tx: Port, b: Burst<P>, nbTx: nat, t: Tally<P>): (nat, Tally<P>)
    requires b.accepted <= b.ok <= |b.pkts|
  {
    var attached := tx.ethdev >= 0;
    var n := if attached then b.accepted else nbTx;
    var t := if attached then Tally(t.sent + multiset(b.pkts[..n]), t.freed + multiset(b.pkts[b.ok..])) else t;
    (n, if n < |b.pkts| then t.(freed := t.freed + multiset(b.pkts[n..])) else t)
  }

  predicate Possible<P>(bursts: seq<Burst<P>>) {
    forall i :: 0 <= i < |bursts| ==> bursts[i].accepted <= bursts[i].ok <= |bursts[i].pkts|
  }

  /** The loop of `forward_packets` from index `i` on; `nbTx` is carried from turn to turn. */
  function Pass<P>(tx: seq<Port>, bursts: seq<Burst<P>>, i: nat, nbTx: nat, t: Tally<P>): Tally<P>
    requires i <= |bursts| <= |tx| && Possible(bursts)
    decreases |bursts| - i
  {
    if i == |bursts| then t
    else if bursts[i].pkts == [] then Pass(tx, bursts, i + 1, nbTx, t)
    else
      var (n, t) := Turn(tx[i], bursts[i], nbTx, t);
      Pass(tx, bursts, i + 1, n, t)
  }

  ghost function Received<P>(bursts: seq<Burst<P>>, i: nat): multiset<P>
    requires i <= |bursts|
    decreases |bursts| - i
  {
    if i == |bursts| then multiset{} else multiset(bursts[i].pkts) + Received(bursts, i + 1)
  }

  function All<P>(t: Tally<P>): multiset<P> {
    t.sent + t.freed
  }

  /** No unattached TX port comes after an attached one. */
  predicate UnattachedFirst(tx: seq<Port>, n: nat)
    requires n <= |tx|
  {
    forall i, j :: 0 <= i < j < n && tx[i].ethdev >= 0 ==> tx[j].ethdev >= 0
  }

  /** The VLAN operations of the attached TX ports process every packet they are given. */
  predicate NoneRejected<P>(tx: seq<Port>, bursts: seq<Burst<P>>)
    requires |bursts| <= |tx|
  {
    forall i :: 0 <= i < |bursts| && tx[i].ethdev >= 0 ==> bursts[i].ok == |bursts[i].pkts|
  }

  /** The packets of a burst that the VLAN operation of an attached port rejects. */
  function RejectedBy<P>(tx: Port, b: Burst<P>): multiset<P>
    requires b.ok <= |b.pkts|
  {
    if tx.ethdev >= 0 then multiset(b.pkts[b.ok..]) else multiset{}
  }

  /** The packets that VLAN operations reject, from index `i` on. */
  ghost function Rejected<P>(tx: seq<Port>, bursts: seq<Burst<P>>, i: nat): multiset<P>
    requires i <= |bursts| <= |tx| && Possible(bursts)
    decreases |bursts| - i
  {
    if i == |bursts| then multiset{} else RejectedBy(tx[i], bursts[i]) + Rejected(tx, bursts, i + 1)
  }

  lemma {:induction false} RejectedIsEmptyIff<P>(tx: seq<Port>, bursts: seq<Burst<P>>, i: nat)
    requires i <= |bursts| <= |tx| && Possible(bursts)
    ensures Rejected(tx, bursts, i) == multiset{} <==>
            forall k :: i <= k < |bursts| && tx[k].ethdev >= 0 ==> bursts[k].ok == |bursts[k].pkts|
    decreases |bursts| - i
  {
    hide RejectedBy;
    if i < |bursts| {
      RejectedIsEmptyIff(tx, bursts, i + 1);
      RejectedByNoneIff(tx[i], bursts[i]);
      SumIsEmptyIff(RejectedBy(tx[i], bursts[i]), Rejected(tx, bursts, i + 1));
    }
  }

  lemma {:induction false} SumIsEmptyIff<P>(a: multiset<P>, b: multiset<P>)
    ensures a + b == multiset{} <==> a == multiset{} && b == multiset{}
  {
    assert |a + b| == |a| + |b|;
  }

  lemma {:induction false} RejectedByNoneIff<P>(tx: Port, b: Burst<P>)
    requires b.ok <= |b.pkts|
    ensures RejectedBy(tx, b) == multiset{} <==> (tx.ethdev >= 0 ==> b.ok == |b.pkts|)
  {
    assert |multiset(b.pkts[b.ok..])| == |b.pkts| - b.ok;
    assert b.ok == |b.pkts| ==> b.pkts[b.ok..] == [];
  }

  lemma {:induction false} TurnTotal<P>(tx: Port, b: Burst<P>, nbTx: nat, t: Tally<P>)
    requires b.accepted <= b.ok <= |b.pkts| && (tx.ethdev < 0 ==> nbTx == 0)
    ensures All(Turn(tx, b, nbTx, t).1) == All(t) + multiset(b.pkts) + RejectedBy(tx, b)
  {
    var n := Turn(tx, b, nbTx, t).0;
    assert b.pkts == b.pkts[..n] + b.pkts[n..];
  }

  /* What is sent or freed in a pass is what was received, and the rejected packets once more. */
  lemma {:induction false} PassTotal<P>(tx: seq<Port>, bursts: seq<Burst<P>>, i: nat, nbTx: nat, t: Tally<P>)
    requires i <= |bursts| <= |tx| && Possible(bursts) && UnattachedFirst(tx, |bursts|)
    requires nbTx == 0 || exists k :: 0 <= k < i && tx[k].ethdev >= 0
    ensures All(Pass(tx, bursts, i, nbTx, t)) == All(t) + Received(bursts, i) + Rejected(tx, bursts, i)
    decreases |bursts| - i
  {
    hide Turn, All, RejectedBy, UnattachedFirst;
    if i < |bursts| {
      var b, rec, rej := bursts[i], Received(bursts, i + 1), Rejected(tx, bursts, i + 1);
      if b.pkts == [] {
        NoneOfNone(tx[i], b);
        PassTotal(tx, bursts, i + 1, nbTx, t);
        Regroup(All(t), multiset{}, multiset{}, rec, rej);
      } else {
        CountWhenUnattached(tx, |bursts|, i, nbTx);
        TurnTotal(tx[i], b, nbTx, t);
        var (n, t1) := Turn(tx[i], b, nbTx, t);
        NextCount(tx, bursts, i, nbTx, t);
        PassTotal(tx, bursts, i + 1, n, t1);
        Regroup(All(t), multiset(b.pkts), RejectedBy(tx[i], b), rec, rej);
      }
    }
  }

  lemma {:induction false} Regroup<P>(t: multiset<P>, a: multiset<P>, b: multiset<P>,
                                      rec: multiset<P>, rej: multiset<P>)
    ensures t + a + b + rec + rej == t + (a + rec) + (b + rej)
  {
  }

  lemma {:induction false} NoneOfNone<P>(tx: Port, b: Burst<P>)
    requires b.ok <= |b.pkts| && b.pkts == []
    ensures RejectedBy(tx, b) == multiset{} && multiset(b.pkts) == multiset{}
  {
  }

  lemma {:induction false} CountWhenUnattached(tx: seq<Port>, n: nat, i: nat, nbTx: nat)
    requires i < n <= |tx| && UnattachedFirst(tx, n)
    requires nbTx == 0 || exists k :: 0 <= k < i && tx[k].ethdev >= 0
    ensures tx[i].ethdev < 0 ==> nbTx == 0
  {
  }

  lemma {:induction false} NextCount<P>(tx: seq<Port>, bursts: seq<Burst<P>>, i: nat, nbTx: nat, t: Tally<P>)
    requires i < |bursts| <= |tx| && Possible(bursts)
    requires nbTx == 0 || exists k :: 0 <= k < i && tx[k].ethdev >= 0
    ensures Turn(tx[i], bursts[i], nbTx, t).0 == 0 || exists k :: 0 <= k < i + 1 && tx[k].ethdev >= 0
  {
    if nbTx != 0 {
      var k :| 0 <= k < i && tx[k].ethdev >= 0;
    }
  }

  /* ----- What is sent, and what is freed ----- */

  /** What a TX port takes of a burst: nothing, unless it is attached. */
  function TakenOf<P>(tx: Port, b: Burst<P>): multiset<P>
    requires b.accepted <= b.ok <= |b.pkts|
  {
    if tx.ethdev >= 0 then multiset(b.pkts[..b.accepted]) else multiset{}
  }

  /** What is freed of a burst: all of it without an attached port; otherwise what the TX burst
      left, and what the VLAN operation rejected once more. */
  function LeftOf<P>(tx: Port, b: Burst<P>): multiset<P>
    requires b.accepted <= b.ok <= |b.pkts|
  {
    if tx.ethdev >= 0 then multiset(b.pkts[b.accepted..]) + multiset(b.pkts[b.ok..]) else multiset(b.pkts)
  }

  /** The packets taken of all bursts from index `i` on. */
  ghost function Taken<P>(tx: seq<Port>, bursts: seq<Burst<P>>, i: nat): multiset<P>
    requires i <= |bursts| <= |tx| && Possible(bursts)
    decreases |bursts| - i
  {
    if i == |bursts| then multiset{} else TakenOf(tx[i], bursts[i]) + Taken(tx, bursts, i + 1)
  }

  ghost function Left<P>(tx: seq<Port>, bursts: seq<Burst<P>>, i: nat): multiset<P>
    requires i <= |bursts| <= |tx| && Possible(bursts)
    decreases |bursts| - i
  {
    if i == |bursts| then multiset{} else LeftOf(tx[i], bursts[i]) + Left(tx, bursts, i + 1)
  }

  lemma {:induction false} TurnSends<P>(tx: Port, b: Burst<P>, nbTx: nat, t: Tally<P>)
    requires b.accepted <= b.ok <= |b.pkts|
    ensures Turn(tx, b, nbTx, t).1.sent == t.sent + TakenOf(tx, b)
    ensures b.pkts == [] ==> TakenOf(tx, b) == multiset{}
  {
  }

  lemma {:induction false} TurnFrees<P>(tx: Port, b: Burst<P>, nbTx: nat, t: Tally<P>)
    requires b.accepted <= b.ok <= |b.pkts| && (tx.ethdev < 0 ==> nbTx == 0)
    ensures Turn(tx, b, nbTx, t).1.freed == t.freed + LeftOf(tx, b)
    ensures b.pkts == [] ==> LeftOf(tx, b) == multiset{}
  {
    assert b.pkts[0..] == b.pkts;
    assert b.accepted == |b.pkts| ==> b.pkts[b.accepted..] == [];
  }

  /* On every path, the packets sent are those that the bursts of attached TX ports take. */
  lemma {:induction false} PassSends<P>(tx: seq<Port>, bursts: seq<Burst<P>>, i: nat, nbTx: nat, t: Tally<P>)
    requires i <= |bursts| <= |tx| && Possible(bursts)
    ensures Pass(tx, bursts, i, nbTx, t).sent == t.sent + Taken(tx, bursts, i)
    decreases |bursts| - i
  {
    hide Turn, TakenOf;
    if i < |bursts| {
      TurnSends(tx[i], bursts[i], nbTx, t);
      var (n, t1) := if bursts[i].pkts == [] then (nbTx, t) else Turn(tx[i], bursts[i], nbTx, t);
      PassSends(tx, bursts, i + 1, n, t1);
    }
  }

  lemma {:induction false} PassFrees<P>(tx: seq<Port>, bursts: seq<Burst<P>>, i: nat, nbTx: nat, t: Tally<P>)
    requires i <= |bursts| <= |tx| && Possible(bursts) && UnattachedFirst(tx, |bursts|)
    requires nbTx == 0 || exists k :: 0 <= k < i && tx[k].ethdev >= 0
    ensures Pass(tx, bursts, i, nbTx, t).freed == t.freed + Left(tx, bursts, i)
    decreases |bursts| - i
  {
    hide Turn, UnattachedFirst, LeftOf;
    if i < |bursts| {
      CountWhenUnattached(tx, |bursts|, i, nbTx);
      TurnFrees(tx[i], bursts[i], nbTx, t);
      NextCount(tx, bursts, i, nbTx, t);
      var (n, t1) := if bursts[i].pkts == [] then (nbTx, t) else Turn(tx[i], bursts[i], nbTx, t);
      PassFrees(tx, bursts, i + 1, n, t1);
    }
  }

  /* On a path without an unattached TX port after an attached one, a pass sends what the
     bursts take and frees the rest, rejected packets twice. */
  lemma {:induction false} PassIsTakenAndLeft<P>(tx: seq<Port>, bursts: seq<Burst<P>>)
    requires |bursts| <= |tx| && Possible(bursts) && UnattachedFirst(tx, |bursts|)
    ensures Pass(tx, bursts, 0, 0, Nothing()) == Tally(Taken(tx, bursts, 0), Left(tx, bursts, 0))
  {
    PassSends(tx, bursts, 0, 0, Nothing());
    PassFrees(tx, bursts, 0, 0, Nothing());
  }

  function Nothing<P>(): Tally<P> {
    Tally(multiset{}, multiset{})
  }

  /* On a path without an unattached TX port after an attached one, every packet received is
     sent or freed, once, exactly when no VLAN operation rejects a packet; a rejected packet
     is freed twice. */
  lemma {:induction false} ConservesIffNoneRejected<P>(tx: seq<Port>, bursts: seq<Burst<P>>)
    requires |bursts| <= |tx| && Possible(bursts) && UnattachedFirst(tx, |bursts|)
    ensures All(Pass(tx, bursts, 0, 0, Nothing())) == Received(bursts, 0) + Rejected(tx, bursts, 0)
    ensures All(Pass(tx, bursts, 0, 0, Nothing())) == Received(bursts, 0) <==> NoneRejected(tx, bursts)
  {
    PassTotal(tx, bursts, 0, 0, Nothing());
    RejectedIsEmptyIff(tx, bursts, 0);
    var r, x := Received(bursts, 0), Rejected(tx, bursts, 0);
    assert All(Nothing<P>()) + r + x == r + x;
    assert r + x == r <==> x == multiset{} by {
      assert |r + x| == |r| + |x|;
    }
  }

  lemma {:induction false} SkipEmpty(tx: seq<Port>, bursts: seq<Burst<nat>>, i: nat, j: nat, nbTx: nat, t: Tally<nat>)
    requires i <= j <= |bursts| <= |tx| && Possible(bursts)
    requires forall k :: i <= k < j ==> bursts[k].pkts == []
    ensures Pass(tx, bursts, i, nbTx, t) == Pass(tx, bursts, j, nbTx, t)
    ensures Received(bursts, i) == Received(bursts, j)
    decreases j - i
  {
    hide Turn, Possible;
    if i < j {
      SkipEmpty(tx, bursts, i + 1, j, nbTx, t);
    }
  }

  /** One packet at index `i`, which its TX port takes, and one at index `j`. */
  function TwoPackets(n: nat, i: nat, j: nat): (b: seq<Burst<nat>>)
    requires i < j < n
    ensures |b| == n && Possible(b) && b[i] == Burst([0], 1, 1) && b[j] == Burst([1], 1, 0)
    ensures forall k :: 0 <= k < n && k != i && k != j ==> b[k] == Burst([], 0, 0)
  {
    seq(n, k => if k == i then Burst([0], 1, 1) else if k == j then Burst([1], 1, 0) else Burst([], 0, 0))
  }

  lemma {:induction false} TwoTurns(attached: Port, unattached: Port, a: Burst<nat>, b: Burst<nat>)
    requires attached.ethdev >= 0 && unattached.ethdev < 0
    requires a == Burst([0], 1, 1) && b == Burst([1], 1, 0)
    ensures var t: Tally<nat> := Tally(multiset{0}, multiset{});
            && Turn(attached, a, 0, Nothing()) == (1, t)
            && Turn(unattached, b, 1, t) == (1, t)
  {
    var none: multiset<nat> := multiset{};
    assert a.pkts[..1] == [0] && a.pkts[1..] == [];
    assert none + multiset(a.pkts[..1]) == multiset{0};
    assert none + multiset(a.pkts[1..]) == none;
  }

  lemma {:induction false} TwoReceived(b: seq<Burst<nat>>, i: nat, j: nat)
    requires i < j < |b| && b[i].pkts == [0] && b[j].pkts == [1]
    requires Received(b, i + 1) == Received(b, j) && Received(b, j + 1) == Received(b, |b|)
    ensures Received(b, i) == multiset{0, 1}
  {
    assert multiset([0]) == multiset{0} && multiset([1]) == multiset{1};
  }

  lemma {:induction false} PassOfTwo(tx: seq<Port>, b: seq<Burst<nat>>, i: nat, j: nat)
    requires i < j < |b| <= |tx| && Possible(b) && tx[i].ethdev >= 0 && tx[j].ethdev < 0
    requires b[i] == Burst([0], 1, 1) && b[j] == Burst([1], 1, 0)
    requires forall k :: 0 <= k < |b| && k != i && k != j ==> b[k].pkts == []
    ensures Pass(tx, b, 0, 0, Nothing()) == Tally(multiset{0}, multiset{})
  {
    hide Possible, Turn, Received;
    var t: Tally<nat> := Tally(multiset{0}, multiset{});
    SkipEmpty(tx, b, 0, i, 0, Nothing());
    TwoTurns(tx[i], tx[j], b[i], b[j]);
    assert Pass(tx, b, i, 0, Nothing()) == Pass(tx, b, i + 1, 1, t);
    SkipEmpty(tx, b, i + 1, j, 1, t);
    assert Pass(tx, b, j, 1, t) == Pass(tx, b, j + 1, 1, t);
    SkipEmpty(tx, b, j + 1, |b|, 1, t);
  }

  lemma {:induction false} ReceivedOfTwo(tx: seq<Port>, b: seq<Burst<nat>>, i: nat, j: nat)
    requires i < j < |b| <= |tx| && Possible(b) && b[i].pkts == [0] && b[j].pkts == [1]
    requires forall k :: 0 <= k < |b| && k != i && k != j ==> b[k].pkts == []
    ensures Received(b, 0) == multiset{0, 1}
  {
    hide Possible, Pass, Received, Nothing;
    SkipEmpty(tx, b, 0, i, 0, Nothing());
    SkipEmpty(tx, b, i + 1, j, 0, Nothing());
    SkipEmpty(tx, b, j + 1, |b|, 0, Nothing());
    TwoReceived(b, i, j);
  }

  /* An unattached port after an attached one: the old count makes the packet vanish. */
  lemma {:induction false} StaleCountLosesPacket(tx: seq<Port>, n: nat, i: nat, j: nat)
    requires i < j < n <= |tx| && tx[i].ethdev >= 0 && tx[j].ethdev < 0
    ensures var b := TwoPackets(n, i, j);
            && NoneRejected(tx, b) && Received(b, 0) == multiset{0, 1}
            && All(Pass(tx, b, 0, 0, Nothing())) == multiset{0}
  {
    hide TwoPackets;
    PassOfTwo(tx, TwoPackets(n, i, j), i, j);
    ReceivedOfTwo(tx, TwoPackets(n, i, j), i, j);
  }

  ghost predicate AlwaysConserves(tx: seq<Port>, n: nat)
    requires n <= |tx|
  {
    forall b: seq<Burst<nat>> | |b| == n && Possible(b) && NoneRejected(tx, b) ::
      All(Pass(tx, b, 0, 0, Nothing())) == Received(b, 0)
  }

  /* While VLAN operations reject nothing, every packet received is sent or freed, once,
     whatever the bursts do, exactly when no unattached TX port comes after an attached one. */
  lemma {:induction false} ConservesIffUnattachedFirst(tx: seq<Port>, n: nat)
    requires n <= |tx|
    ensures AlwaysConserves(tx, n) <==> UnattachedFirst(tx, n)
  {
    if UnattachedFirst(tx, n) {
      forall b: seq<Burst<nat>> | |b| == n && Possible(b) && NoneRejected(tx, b)
        ensures All(Pass(tx, b, 0, 0, Nothing())) == Received(b, 0)
      {
        ConservesIffNoneRejected(tx, b);
      }
    } else {
      var i, j :| 0 <= i < j < n && tx[i].ethdev >= 0 && tx[j].ethdev < 0;
      StaleCountLosesPacket(tx, n, i, j);
      assert 1 in multiset{0, 1} && 1 !in multiset{0};
    }
  }

  /* A path that `update_forwarder` built has one TX port only, so the carried count does no
     harm on it: packets are conserved exactly when that port's VLAN operation rejects none. */
  lemma {:induction false} BuiltPathConservesIff<P>(p: Path, bursts: seq<Burst<P>>)
    requires SharesTx(p) && |bursts| == p.nofRx && Possible(bursts)
    ensures All(Pass(p.tx, bursts, 0, 0, Nothing())) == Received(bursts, 0) <==> NoneRejected(p.tx, bursts)
  {
    ConservesIffNoneRejected(p.tx, bursts);
  }

  /* Concretely: the only packet of a burst, rejected for want of room for a tag, is freed twice. */
  lemma {:induction false} RejectedPacketIsFreedTwice(port: Port)
    requires port.ethdev >= 0
    ensures All(Pass([port], [Burst([0], 0, 0)], 0, 0, Nothing())) == multiset{0, 0}
  {
    var b := [Burst([0], 0, 0)];
    ConservesIffNoneRejected([port], b);
    assert [0][0..] == [0];
    assert Received(b, 1) == multiset{} && Rejected([port], b, 1) == multiset{};
    assert multiset([0]) == multiset{0};
  }
}
