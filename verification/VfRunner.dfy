/**
 * The records of spp_vf in memory and the commands on them:
 * src/vf/vf_cmd_runner.c:121-379 and 519-550, with the searches of
 * src/shared/secondary/spp_worker_th/cmd_utils.c:611-701.
 */
module VfRunner {
  import opened Sequences
  import opened VfCommands

  /** The empty place behind the ports of a component. */
  const NULL_PORT: Port := 0

  /** The last index of a port, as `get_idx_port_info` finds it; the number of ports when it is not there. */
  method GetIdxPortInfo(p: Port, n: nat, ports: array<Port>) returns (k: nat)
    requires n <= ports.Length
    ensures k == LastOf(ports[..n], p)
  {
    k := n;
    for i := 0 to n
      invariant k == if p in ports[..i] then LastOf(ports[..i], p) else n
    {
      assert ports[..i+1][..i] == ports[..i];
      if ports[i] == p {
        k := i;
      }
    }
  }

  /** Closes the gap left by a port in place. */
  method DeletePortInfo(p: Port, n: nat, ports: array<Port>) returns (ok: bool)
    requires n <= ports.Length
    modifies ports
    ensures ok == (p in old(ports[..n]))
    ensures !ok ==> ports[..] == old(ports[..])
    ensures ok ==> n > 0 && ports[n-1] == NULL_PORT
    ensures ok ==> ports[..n-1] == Without(old(ports[..n]), LastOf(old(ports[..n]), p))
  {
    ghost var was := ports[..n];
    var target := GetIdxPortInfo(p, n, ports);
    if target == n {
      return false;
    }
    CloseGap(target, n, ports);
    ports[n-1] := NULL_PORT;
    assert ports[..n-1] == Without(was, target);
    return true;
  }

  /** `del_comp_info`, in place on the list of a core: without the component in it, the first entry goes. */
  method DelCompInfo(k: nat, n: nat, ids: array<nat>)
    requires n <= ids.Length && ids.Length > 0
    modifies ids
    ensures n > 0 ==> ids[..n-1] == DropComp(old(ids[..n]), k) && ids[n-1] == 0 && ids[n..] == old(ids[n..])
    ensures n == 0 ==> ids[..] == old(ids[..])[0 := 0]
  {
    ghost var was := ids[..n];
    var idx := 0;
    for i := 0 to n
      invariant idx == if k in ids[..i] then LastOf(ids[..i], k) else 0
    {
      assert ids[..i+1][..i] == ids[..i];
      if ids[i] == k {
        idx := i;
      }
    }
    if n == 0 {
      ids[idx] := 0;
      return;
    }
    CloseGap(idx, n, ids);
    assert ids[..n-1] == Without(was, idx);
    ids[n-1] := 0;
  }

  /* Moves the entries behind an index one place down. */
  method CloseGap(target: nat, n: nat, a: array<nat>)
    requires target < n <= a.Length
    modifies a
    ensures forall m :: 0 <= m < target ==> a[m] == old(a[m])
    ensures forall m :: target <= m < n - 1 ==> a[m] == old(a[m+1])
    ensures forall m :: n - 1 <= m < a.Length ==> a[m] == old(a[m])
  {
    for i := target to n - 1
      invariant forall m :: 0 <= m < target ==> a[m] == old(a[m])
      invariant forall m :: target <= m < i ==> a[m] == old(a[m+1])
      invariant forall m :: i <= m < a.Length ==> a[m] == old(a[m])
    {
      a[i] := a[i+1];
    }
  }

  class CompInfo {
    var name: string
    var kind: Kind
    var lcore: nat
    var nofRx: nat
    var nofTx: nat
    const rxPorts: array<Port>
    const txPorts: array<Port>

    constructor ()
      ensures Valid() && View() == NO_COMP && fresh(rxPorts) && fresh(txPorts)
    {
      name, kind, lcore, nofRx, nofTx := "", NoKind, 0, 0, 0;
      rxPorts := new Port[MAX_PORTS](_ => NULL_PORT);
      txPorts := new Port[MAX_PORTS](_ => NULL_PORT);
    }

    ghost predicate Valid()
      reads this
    {
      && rxPorts != txPorts && rxPorts.Length == txPorts.Length == MAX_PORTS
      && nofRx <= MAX_PORTS && nofTx <= MAX_PORTS && lcore < MAX_LCORE
    }

    ghost function View(): Comp
      requires Valid()
      reads this, rxPorts, txPorts
    {
      Comp(name, kind, lcore, rxPorts[..nofRx], txPorts[..nofTx])
    }

    method Reset(name: string, kind: Kind, lcore: nat)
      requires Valid() && lcore < MAX_LCORE
      modifies this
      ensures Valid() && View() == Comp(name, kind, lcore, [], [])
    {
      this.name, this.kind, this.lcore, nofRx, nofTx := name, kind, lcore, 0, 0;
    }

    method AppendPort(dir: Dir, p: Port)
      requires Valid() && |Ports(View(), dir)| < MAX_PORTS
      modifies this, rxPorts, txPorts
      ensures Valid() && View() == WithPorts(old(View()), dir, old(Ports(View(), dir)) + [p])
    {
      if dir == Rx {
        rxPorts[nofRx] := p;
        nofRx := nofRx + 1;
      } else {
        txPorts[nofTx] := p;
        nofTx := nofTx + 1;
      }
    }

    method RemovePort(dir: Dir, p: Port)
      requires Valid()
      modifies this, rxPorts, txPorts
      ensures Valid()
      ensures var c := old(View());
              var at := LastOf(Ports(c, dir), p);
              View() == if at == |Ports(c, dir)| then c else WithPorts(c, dir, Without(Ports(c, dir), at))
    {
      hide LastOf, Without;
      if dir == Rx {
        var ok := DeletePortInfo(p, nofRx, rxPorts);
        if ok {
          nofRx := nofRx - 1;
        } else {
          assert rxPorts[..nofRx] == rxPorts[..][..nofRx];
        }
      } else {
        var ok := DeletePortInfo(p, nofTx, txPorts);
        if ok {
          nofTx := nofTx - 1;
        } else {
          assert txPorts[..nofTx] == txPorts[..][..nofTx];
        }
      }
    }
  }

  /** Records that share nothing. */
  ghost predicate Apart(a: CompInfo, b: CompInfo) {
    a != b && {a.rxPorts, a.txPorts} !! {b.rxPorts, b.txPorts}
  }

  /** The management data; `model` is what the records hold. */
  class Runner {
    const comps: seq<CompInfo>
    var attrs: map<Port, seq<Attr>>
    var changed: seq<bool>
    var cores: seq<seq<nat>>
    var coreChanged: seq<bool>
    ghost var model: seq<Comp>

    constructor (comps: seq<CompInfo>)
      requires |comps| == MAX_LCORE
      requires forall i, j :: 0 <= i < |comps| && 0 <= j < |comps| && i != j ==> Apart(comps[i], comps[j])
      requires forall k :: 0 <= k < |comps| ==> comps[k].Valid() && comps[k].View() == NO_COMP
      ensures Valid() && View() == INITIAL && this.comps == comps
    {
      this.comps, attrs := comps, map[];
      changed, coreChanged := seq(MAX_LCORE, _ => false), seq(MAX_LCORE, _ => false);
      cores := seq(MAX_LCORE, _ => []);
      model := seq(MAX_LCORE, _ => NO_COMP);
    }

    ghost function Arrays(): set<array<Port>> {
      (set c | c in comps :: c.rxPorts) + (set c | c in comps :: c.txPorts)
    }

    ghost predicate Valid()
      reads this, comps, Arrays()
    {
      && |comps| == |model| == |changed| == |cores| == |coreChanged| == MAX_LCORE && Records()
      && (forall p :: p in attrs ==> |attrs[p]| == MAX_ATTRS)
    }

    ghost predicate Records()
      reads `model, comps, Arrays()
    {
      && |comps| == |model|
      && (forall i, j :: 0 <= i < |comps| && 0 <= j < |comps| && i != j ==> Apart(comps[i], comps[j]))
      && (forall k :: 0 <= k < |comps| ==> Holds(k))
    }

    ghost predicate Holds(k: nat)
      requires k < |comps|
      reads `model, comps, Arrays()
    {
      && comps[k].rxPorts in Arrays() && comps[k].txPorts in Arrays()
      && k < |model| && comps[k].Valid() && comps[k].View() == model[k]
    }

    ghost function View(): State
      reads this
    {
      State(model, attrs, changed, cores, coreChanged)
    }

    /* What happens to one record does not reach the others. */
    twostate lemma OthersHold(k: nat)
      requires old(Records()) && k < |comps| && |model| == |comps|
      requires forall i :: 0 <= i < |comps| && i != k ==> model[i] == old(model[i])
      requires forall i :: 0 <= i < |comps| && i != k ==>
                 unchanged(comps[i]) && unchanged(comps[i].rxPorts) && unchanged(comps[i].txPorts)
      ensures forall i :: 0 <= i < |comps| && i != k ==> Holds(i)
    {
      forall i | 0 <= i < |comps| && i != k ensures Holds(i) {
        assert old(Holds(i));
      }
    }

    method GetLcoreId(name: string) returns (k: nat)
      requires Valid()
      ensures k == FindName(model, name)
    {
      if name == "" {
        return |comps|;
      }
      k := 0;
      while k < |comps| && comps[k].name != name
        invariant 0 <= k <= |comps|
        invariant forall i :: 0 <= i < k ==> model[i].name != name
      {
        assert Holds(k);
        k := k + 1;
      }
      assert k < |comps| ==> Holds(k);
    }

    method GetFreeLcoreId() returns (k: nat)
      requires Valid()
      ensures k == FindFree(model)
    {
      k := 0;
      while k < |comps| && comps[k].kind != NoKind
        invariant 0 <= k <= |comps|
        invariant forall i :: 0 <= i < k ==> model[i].kind != NoKind
      {
        assert Holds(k);
        k := k + 1;
      }
      assert k < |comps| ==> Holds(k);
    }

    method ResetComp(k: nat, name: string, kind: Kind, lcore: nat, flag: bool)
      requires Valid() && k < |comps| && lcore < MAX_LCORE
      modifies `model, `changed, comps
      ensures Valid() && View() == SetComp(old(View()), k, Comp(name, kind, lcore, [], []), flag)
    {
      assert Holds(k);
      comps[k].Reset(name, kind, lcore);
      model := model[k := Comp(name, kind, lcore, [], [])];
      changed := changed[k := flag];
      OthersHold(k);
    }

    method ResetCore(c: nat, ids: seq<nat>)
      requires Valid() && c < MAX_LCORE
      modifies `cores, `coreChanged
      ensures Valid() && View() == SetCore(old(View()), c, ids)
    {
      cores, coreChanged := cores[c := ids], coreChanged[c := true];
    }

    method LcoreOf(k: nat) returns (c: nat)
      requires Valid() && k < |comps|
      ensures c == model[k].lcore && c < MAX_LCORE
    {
      assert Holds(k);
      c := comps[k].lcore;
    }

    method AppendPort(k: nat, dir: Dir, p: Port)
      requires Valid() && k < |comps| && |Ports(model[k], dir)| < MAX_PORTS
      modifies `model, `changed, comps, Arrays()
      ensures Valid()
      ensures View() == SetComp(old(View()), k, WithPorts(old(model[k]), dir, Ports(old(model[k]), dir) + [p]), true)
    {
      assert Holds(k);
      comps[k].AppendPort(dir, p);
      model := model[k := WithPorts(model[k], dir, Ports(model[k], dir) + [p])];
      changed := changed[k := true];
      OthersHold(k);
    }

    method RemovePort(k: nat, dir: Dir, p: Port)
      requires Valid() && k < |comps|
      modifies `model, `changed, comps, Arrays()
      ensures Valid()
      ensures var c := old(model[k]);
              var at := LastOf(Ports(c, dir), p);
              View() == SetComp(old(View()), k, if at == |Ports(c, dir)| then c
                                                else WithPorts(c, dir, Without(Ports(c, dir), at)), true)
    {
      hide LastOf, Without;
      assert Holds(k);
      comps[k].RemovePort(dir, p);
      model := model[k := comps[k].View()];
      changed := changed[k := true];
      OthersHold(k);
    }

    method PortAttrs(p: Port) returns (a: seq<Attr>)
      requires Valid()
      ensures a == Attrs(View(), p) && |a| == MAX_ATTRS
    {
      a := if p in attrs then attrs[p] else [NO_ATTR, NO_ATTR, NO_ATTR, NO_ATTR];
    }

    /* The first ability of a port with the given operation. */
    method FindAttr(a: seq<Attr>, ops: AttrOps) returns (cnt: nat)
      ensures cnt == FindOps(a, ops)
    {
      cnt := 0;
      while cnt < |a| && a[cnt].ops != ops
        invariant cnt <= |a|
        invariant FindOps(a, ops) == cnt + FindOps(a[cnt..], ops)
      {
        cnt := cnt + 1;
      }
    }

    /* The list of a core without a component. */
    method CoreWithout(c: nat, k: nat) returns (ids: seq<nat>)
      requires Valid() && c < MAX_LCORE
      ensures ids == DropComp(cores[c], k)
    {
      var n := |cores[c]|;
      if n == 0 {
        return [];
      }
      var list := cores[c];
      var a := new nat[n](i requires 0 <= i < n => list[i]);
      assert a[..n] == list;
      DelCompInfo(k, n, a);
      ids := a[..n-1];
    }

    method StartComp(name: string, kind: Kind, lcore: nat, usable: bool) returns (ok: bool)
      requires Valid() && Shaped(View()) && lcore < MAX_LCORE
      modifies this, comps
      ensures Valid() && (View(), ok) == VfCommands.StartComp(old(View()), name, kind, lcore, usable)
    {
      hide FindName, FindFree;
      var k := GetLcoreId(name);
      var free := GetFreeLcoreId();
      ok := usable && k == |comps| && free < |comps|;
      if ok {
        ResetComp(free, name, kind, lcore, true);
        ResetCore(lcore, cores[lcore] + [free]);
      }
    }

    method StopComp(name: string) returns (ok: bool)
      requires Valid() && Shaped(View())
      modifies this, comps
      ensures Valid() && (View(), ok) == VfCommands.StopComp(old(View()), name)
    {
      hide FindName, DropComp;
      var k := GetLcoreId(name);
      ok := true;
      if k < |comps| {
        var c := LcoreOf(k);
        ResetComp(k, "", NoKind, 0, false);
        var ids := CoreWithout(c, k);
        ResetCore(c, ids);
      }
    }

    method UpdateComp(cmd: Command) returns (ok: bool)
      requires Valid() && (cmd.Start? || cmd.Stop?) && Parsed(cmd)
      modifies this, comps
      ensures Valid() && Shaped(old(View())) && (View(), ok) == Exec(old(View()), cmd)
    {
      ShapedView();
      hide Records, Shaped, VfCommands.StartComp, VfCommands.StopComp;
      if cmd.Start? {
        ok := StartComp(cmd.name, cmd.kind, cmd.lcore, cmd.usable);
      } else {
        ok := StopComp(cmd.name);
      }
    }

    lemma ShapedView()
      requires Valid()
      ensures Shaped(View())
    {
      forall k | 0 <= k < |model| ensures model[k].lcore < MAX_LCORE {
        assert Holds(k);
      }
    }

    method HasPort(k: nat, dir: Dir, p: Port) returns (found: bool)
      requires Valid() && k < |comps|
      ensures found == (p in Ports(model[k], dir))
    {
      hide LastOf;
      assert Holds(k);
      var c := comps[k];
      var n := if dir == Rx then c.nofRx else c.nofTx;
      var at := GetIdxPortInfo(p, n, if dir == Rx then c.rxPorts else c.txPorts);
      found := at < n;
    }

    /* Whether the component may take the port, before looking at its abilities. */
    method MayAdd(k: nat, dir: Dir) returns (allowed: bool, room: bool)
      requires Valid() && k < |comps|
      ensures allowed == CountAllows(model[k].kind, dir, |model[k].rx|, |model[k].tx|)
      ensures room == (|Ports(model[k], dir)| < MAX_PORTS)
    {
      assert Holds(k);
      var c := comps[k];
      allowed := CountAllows(c.kind, dir, c.nofRx, c.nofTx);
      room := (if dir == Rx then c.nofRx else c.nofTx) < MAX_PORTS;
    }

    /* Puts an ability into the first slot with the given operation. */
    method StoreAttr(p: Port, ops: AttrOps, attr: Attr) returns (ok: bool)
      requires Valid()
      modifies `attrs
      ensures Valid()
      ensures var k := FindOps(Attrs(old(View()), p), ops);
              && ok == (k < |Attrs(old(View()), p)|)
              && View() == if ok then PutAttr(old(View()), p, k, attr) else old(View())
    {
      hide FindOps;
      var a := PortAttrs(p);
      var cnt := FindAttr(a, ops);
      ok := cnt < MAX_ATTRS;
      if ok {
        attrs := attrs[p := a[cnt := attr]];
      }
    }

    method AddPort(k: nat, dir: Dir, p: Port, attr: Attr) returns (ok: bool)
      requires Valid() && k < |comps|
      modifies this, comps, Arrays()
      ensures Valid() && (View(), ok) == VfCommands.AddPort(old(View()), k, dir, p, attr)
    {
      hide FindOps, Attrs, LastOf, Records, WithPorts;
      var allowed, room := MayAdd(k, dir);
      var found := HasPort(k, dir, p);
      ok := allowed;
      if allowed && found {
        if attr.ops == AddVlan {
          ok := StoreAttr(p, AddVlan, attr);
          if ok {
            changed := changed[k := true];
          }
        }
      } else if allowed {
        ok := room;
        if ok && attr.ops != NoOps {
          ok := StoreAttr(p, NoOps, attr);
        }
        if ok {
          AppendPort(k, dir, p);
        }
      }
    }

    method ClearAttrs(was: seq<Attr>, dir: Dir) returns (a: seq<Attr>)
      ensures a == Cleared(was, dir)
    {
      hide Cleared;
      a := was;
      for cnt := 0 to |was|
        invariant |a| == |was|
        invariant forall i :: 0 <= i < cnt ==> a[i] == Cleared(was, dir)[i]
        invariant forall i :: cnt <= i < |was| ==> a[i] == was[i]
      {
        if a[cnt].ops != NoOps && a[cnt].dir == dir {
          a := a[cnt := NO_ATTR];
        }
      }
    }

    method DeletePort(k: nat, dir: Dir, p: Port) returns (ok: bool)
      requires Valid() && k < |comps|
      modifies this, comps, Arrays()
      ensures Valid() && (View(), ok) == VfCommands.DeletePort(old(View()), k, dir, p)
    {
      hide LastOf, Without, Records, WithPorts;
      var a := PortAttrs(p);
      a := ClearAttrs(a, dir);
      attrs := attrs[p := a];
      RemovePort(k, dir, p);
      ok := true;
    }

    method UpdatePort(cmd: Command) returns (ok: bool)
      requires Valid() && (cmd.Add? || cmd.Delete?)
      modifies this, comps, Arrays()
      ensures Valid() && Shaped(old(View())) && (View(), ok) == Exec(old(View()), cmd)
    {
      ShapedView();
      hide FindName, Records, VfCommands.AddPort, VfCommands.DeletePort;
      var k := GetLcoreId(cmd.name);
      if k == |comps| {
        ok := false;
      } else if cmd.Add? {
        ok := AddPort(k, cmd.dir, cmd.port, cmd.attr);
      } else {
        ok := DeletePort(k, cmd.dir, cmd.port);
      }
    }

    /* What `update_forwarder` says to the record of a component. */
    method ForwarderAccepts(k: nat) returns (ok: bool)
      requires Valid() && k < |comps| && SaneComp(model[k])
      ensures model[k].kind != Classifier ==> ok
    {
      assert Holds(k);
      var c := comps[k];
      ok := !(c.kind == Forwarder && c.nofRx > 1) && (c.nofTx == 0 || c.nofTx == 1);
    }

    /**
     * Activates the changed components; `built` is what building the tables
     * of each classifier answers. Nothing else can make it fail.
     */
    method UpdateCompInfo(built: seq<bool>) returns (ok: bool, activated: seq<nat>)
      requires Valid() && Sane(View()) && |built| == |comps|
      ensures ok <==> forall k :: 0 <= k < |comps| && changed[k] && model[k].kind == Classifier ==> built[k]
      ensures ok ==> activated == Changed(changed, |comps|)
      ensures !ok ==> exists k :: 0 <= k < |comps| && changed[k] && model[k].kind == Classifier && !built[k]
                                  && activated == Changed(changed, k)
    {
      hide SaneComp;
      activated := [];
      for k := 0 to |comps|
        invariant forall i :: 0 <= i < k && changed[i] && model[i].kind == Classifier ==> built[i]
        invariant activated == Changed(changed, k)
      {
        if changed[k] {
          assert Holds(k);
          var answer;
          if comps[k].kind == Classifier {
            answer := built[k];
          } else {
            answer := ForwarderAccepts(k);
          }
          if !answer {
            return false, activated;
          }
          activated := activated + [k];
        }
      }
      ok := true;
    }
  }

  /** The components below `n` with their flag set, in order. */
  function Changed(flags: seq<bool>, n: nat): (r: seq<nat>)
    requires n <= |flags|
    ensures forall k :: k in r <==> 0 <= k < n && flags[k]
    ensures forall i, j :: 0 <= i < j < |r| ==> r[i] < r[j]
  {
    if n == 0 then []
    else
      var r := Changed(flags, n - 1);
      assert forall i :: 0 <= i < |r| ==> r[i] in r;
      if flags[n-1] then r + [n-1] else r
  }
}
