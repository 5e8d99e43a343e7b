/**
 * Component and port commands of spp_vf: src/vf/vf_cmd_runner.c:121-379 and
 * 519-550, on values. `VfRunner` carries them out on the records in memory.
 */
module VfCommands {
  import F = Forwarder
  import T = ClassifierTable
  import opened Sequences
  import opened Text

  const MAX_LCORE: nat := 128
  const MAX_PORTS: nat := 1024
  const MAX_ATTRS: nat := 4

  datatype Kind = NoKind | Forwarder | Merger | Classifier

  datatype Dir = Rx | Tx

  datatype AttrOps = NoOps | AddVlan | DelVlan

  datatype Attr = Attr(ops: AttrOps, dir: Dir, vid: nat)

  const NO_ATTR := Attr(NoOps, Rx, 0)

  /** A port is known by its address; its abilities are kept beside it. */
  type Port = nat

  datatype Comp = Comp(name: string, kind: Kind, lcore: nat, rx: seq<Port>, tx: seq<Port>)

  const NO_COMP := Comp("", NoKind, 0, [], [])

  /** `cores` lists the components that each core is to run; the flags tell what a flush has to
      activate. */
  datatype State = State(comps: seq<Comp>, attrs: map<Port, seq<Attr>>, changed: seq<bool>,
                         cores: seq<seq<nat>>, coreChanged: seq<bool>)

  predicate Shaped(s: State) {
    |s.comps| == |s.changed| == |s.cores| == |s.coreChanged| == MAX_LCORE
    && forall k :: 0 <= k < |s.comps| ==> s.comps[k].lcore < MAX_LCORE
  }

  /** Commands, with what the rest of the process answers: a usable core, added
      interfaces, and whether the classifier tables could be built. */
  datatype Command =
    | Start(name: string, kind: Kind, lcore: nat, usable: bool)
    | Stop(name: string)
    | Add(name: string, dir: Dir, port: Port, attr: Attr)
    | Delete(name: string, dir: Dir, port: Port)

  /** What the command parser lets through: a component type it knows and a core there is. */
  predicate Parsed(cmd: Command) {
    cmd.Start? ==> cmd.kind != NoKind && cmd.lcore < MAX_LCORE
  }

  // Searching

  /** The first component with a name, if it has one. */
  function FindName(comps: seq<Comp>, name: string): (k: nat)
    ensures k <= |comps|
    ensures k < |comps| ==> name != "" && comps[k].name == name
    ensures k == |comps| && name != "" ==> forall i :: 0 <= i < |comps| ==> comps[i].name != name
    ensures forall i :: 0 <= i < k < |comps| ==> comps[i].name != name
  {
    if comps == [] then 0
    else if name == "" then |comps|
    else if comps[0].name == name then 0
    else 1 + FindName(comps[1..], name)
  }

  function FindFree(comps: seq<Comp>): (k: nat)
    ensures k <= |comps| && (k < |comps| ==> comps[k].kind == NoKind)
    ensures forall i :: 0 <= i < k ==> comps[i].kind != NoKind
  {
    if comps == [] || comps[0].kind == NoKind then 0 else 1 + FindFree(comps[1..])
  }

  /** The last position of a port or a component, or the length. */
  function LastOf(ports: seq<nat>, p: nat): (k: nat)
    ensures k <= |ports|
    ensures k < |ports| ==> ports[k] == p && p !in ports[k+1..]
    ensures k == |ports| <==> p !in ports
  {
    var n := |ports| - 1;
    if ports == [] then 0
    else if ports[n] == p then n
    else
      var k := LastOf(ports[..n], p);
      if k == n then |ports| else k
  }

  function Attrs(s: State, p: Port): seq<Attr> {
    if p in s.attrs then s.attrs[p] else [NO_ATTR, NO_ATTR, NO_ATTR, NO_ATTR]
  }

  /** The first ability slot with the given operation, or the length. */
  function FindOps(attrs: seq<Attr>, ops: AttrOps): (k: nat)
    ensures k <= |attrs| && (k < |attrs| ==> attrs[k].ops == ops)
  {
    if attrs == [] || attrs[0].ops == ops then 0 else 1 + FindOps(attrs[1..], ops)
  }

  function Cleared(attrs: seq<Attr>, dir: Dir): (r: seq<Attr>)
    ensures |r| == |attrs|
    ensures forall i :: 0 <= i < |r| ==>
              r[i] == if attrs[i].ops != NoOps && attrs[i].dir == dir then NO_ATTR else attrs[i]
  {
    seq(|attrs|, i requires 0 <= i < |attrs| =>
      if attrs[i].ops != NoOps && attrs[i].dir == dir then NO_ATTR else attrs[i])
  }

  // Commands

  /** Whether a component may have one more port in a direction. */
  predicate CountAllows(kind: Kind, dir: Dir, nofRx: nat, nofTx: nat) {
    var rx, tx := if dir == Rx then nofRx + 1 else nofRx, if dir == Rx then nofTx else nofTx + 1;
    match kind
    case Forwarder => rx <= 1 && tx <= 1
    case Merger => tx <= 1
    case Classifier => rx <= 1
    case NoKind => false
  }

  function Ports(c: Comp, dir: Dir): seq<Port> {
    if dir == Rx then c.rx else c.tx
  }

  function WithPorts(c: Comp, dir: Dir, ports: seq<Port>): (r: Comp)
    ensures r.name == c.name && r.kind == c.kind
    ensures Ports(r, dir) == ports
    ensures dir == Rx ==> r.tx == c.tx
    ensures dir == Tx ==> r.rx == c.rx
  {
    if dir == Rx then c.(rx := ports) else c.(tx := ports)
  }

  function SetComp(s: State, k: nat, c: Comp, changed: bool): State
    requires k < |s.comps| == |s.changed|
  {
    s.(comps := s.comps[k := c], changed := s.changed[k := changed])
  }

  function SetCore(s: State, c: nat, ids: seq<nat>): State
    requires c < |s.cores| == |s.coreChanged|
  {
    s.(cores := s.cores[c := ids], coreChanged := s.coreChanged[c := true])
  }

  function StartComp(s: State, name: string, kind: Kind, lcore: nat, usable: bool): (State, bool)
    requires Shaped(s) && lcore < MAX_LCORE
  {
    var k := FindFree(s.comps);
    if !usable || FindName(s.comps, name) < |s.comps| || k == |s.comps| then (s, false)
    else (SetCore(SetComp(s, k, Comp(name, kind, lcore, [], []), true), lcore, s.cores[lcore] + [k]), true)
  }

  /** `del_comp_info`: the last entry of a component is removed, or the first entry of the list
      when the component is not in it. */
  function DropComp(ids: seq<nat>, k: nat): seq<nat> {
    if ids == [] then [] else Without(ids, if k in ids then LastOf(ids, k) else 0)
  }

  function StopComp(s: State, name: string): (State, bool)
    requires Shaped(s)
  {
    var k := FindName(s.comps, name);
    if k == |s.comps| then (s, true)
    else
      var c := s.comps[k].lcore;
      (SetCore(SetComp(s, k, NO_COMP, false), c, DropComp(s.cores[c], k)), true)
  }

  /** Where the abilities given with a port go: `None` when there is no room for them. */
  function AttrSlot(attrs: seq<Attr>, attr: Attr, registered: bool): (r: Option<nat>)
    ensures r.Some? ==> r.value < |attrs|
  {
    var k := FindOps(attrs, if registered then AddVlan else NoOps);
    if k == |attrs| then None else Some(k)
  }

  function PutAttr(s: State, p: Port, k: nat, attr: Attr): State
    requires k < |Attrs(s, p)|
  {
    s.(attrs := s.attrs[p := Attrs(s, p)[k := attr]])
  }

  /** Adds a port to the component at `k`. */
  function AddPort(s: State, k: nat, dir: Dir, p: Port, attr: Attr): (State, bool)
    requires k < |s.comps| == |s.changed|
  {
    var c := s.comps[k];
    var ports := Ports(c, dir);
    var slot := AttrSlot(Attrs(s, p), attr, p in ports);
    if !CountAllows(c.kind, dir, |c.rx|, |c.tx|) then (s, false)
    else if p in ports then
      if attr.ops != AddVlan then (s, true)
      else if slot.None? then (s, false)
      else (PutAttr(s, p, slot.value, attr).(changed := s.changed[k := true]), true)
    else if |ports| >= MAX_PORTS then (s, false)
    else if attr.ops != NoOps && slot.None? then (s, false)
    else
      var s := if attr.ops == NoOps then s else PutAttr(s, p, slot.value, attr);
      (SetComp(s, k, WithPorts(c, dir, ports + [p]), true), true)
  }

  function DeletePort(s: State, k: nat, dir: Dir, p: Port): (State, bool)
    requires k < |s.comps| == |s.changed|
  {
    var c := s.comps[k];
    var at := LastOf(Ports(c, dir), p);
    var s := s.(attrs := s.attrs[p := Cleared(Attrs(s, p), dir)]);
    (SetComp(s, k, if at == |Ports(c, dir)| then c else WithPorts(c, dir, Without(Ports(c, dir), at)), true), true)
  }

  function Exec(s: State, cmd: Command): (State, bool)
    requires Shaped(s) && Parsed(cmd)
  {
    match cmd
    case Start(name, kind, lcore, usable) => StartComp(s, name, kind, lcore, usable)
    case Stop(name) => StopComp(s, name)
    case Add(name, dir, port, attr) =>
      var k := FindName(s.comps, name);
      if k == |s.comps| then (s, false) else AddPort(s, k, dir, port, attr)
    case Delete(name, dir, port) =>
      var k := FindName(s.comps, name);
      if k == |s.comps| then (s, false) else DeletePort(s, k, dir, port)
  }

  // Invariants

  predicate Limited(kind: Kind, nofRx: nat, nofTx: nat) {
    match kind
    case Forwarder => nofRx <= 1 && nofTx <= 1
    case Merger => nofTx <= 1
    case Classifier => nofRx <= 1
    case NoKind => nofRx == 0 && nofTx == 0
  }

  ghost predicate SaneComp(c: Comp) {
    && Distinct(c.rx) && Distinct(c.tx) && |c.rx| <= MAX_PORTS && |c.tx| <= MAX_PORTS
    && Limited(c.kind, |c.rx|, |c.tx|)
  }

  /** Every component is within its limits, a name denotes one component, and a record in use
      has a type. */
  ghost predicate Sane(s: State) {
    && Shaped(s)
    && (forall k :: 0 <= k < |s.comps| ==> SaneComp(s.comps[k]))
    && (forall i, j :: 0 <= i < j < |s.comps| && s.comps[i].name != "" ==> s.comps[i].name != s.comps[j].name)
    && (forall k :: 0 <= k < |s.comps| && s.comps[k].kind == NoKind ==> s.comps[k].name == "")
    && (forall p :: p in s.attrs ==> |s.attrs[p]| == MAX_ATTRS)
  }

  /** The list of a core names exactly the components on it, each once. */
  ghost predicate Listed(s: State, c: nat)
    requires c < |s.cores|
  {
    && Distinct(s.cores[c])
    && (forall k :: k in s.cores[c] ==> k < |s.comps|)
    && forall k :: 0 <= k < |s.comps| ==> (k in s.cores[c] <==> s.comps[k].kind != NoKind && s.comps[k].lcore == c)
  }

  ghost predicate AllListed(s: State) {
    forall c :: 0 <= c < |s.cores| ==> Listed(s, c)
  }

  const INITIAL := State(seq(MAX_LCORE, _ => NO_COMP), map[], seq(MAX_LCORE, _ => false),
                         seq(MAX_LCORE, _ => []), seq(MAX_LCORE, _ => false))

  lemma AddKeepsComp(c: Comp, dir: Dir, p: Port)
    requires SaneComp(c) && CountAllows(c.kind, dir, |c.rx|, |c.tx|)
    requires p !in Ports(c, dir) && |Ports(c, dir)| < MAX_PORTS
    ensures SaneComp(WithPorts(c, dir, Ports(c, dir) + [p]))
  {
    assert forall i :: 0 <= i < |Ports(c, dir)| ==> Ports(c, dir)[i] in Ports(c, dir);
  }

  lemma DeleteKeepsComp(c: Comp, dir: Dir, k: nat)
    requires SaneComp(c) && k < |Ports(c, dir)|
    ensures SaneComp(WithPorts(c, dir, Without(Ports(c, dir), k)))
  {
    hide Without;
  }

  lemma SetKeeps(s: State, k: nat, c: Comp, changed: bool)
    requires Sane(s) && k < |s.comps| && SaneComp(c) && c.lcore < MAX_LCORE && (c.kind == NoKind ==> c.name == "")
    requires c.name == s.comps[k].name || c.name == "" || forall i :: 0 <= i < |s.comps| ==> s.comps[i].name != c.name
    ensures Sane(SetComp(s, k, c, changed))
  {
    hide SaneComp;
  }

  lemma PutKeeps(s: State, p: Port, k: nat, attr: Attr)
    requires Sane(s) && k < |Attrs(s, p)|
    ensures Sane(PutAttr(s, p, k, attr)) && PutAttr(s, p, k, attr).comps == s.comps
  {
    hide SaneComp;
  }

  lemma AddKeeps(s: State, k: nat, dir: Dir, p: Port, attr: Attr)
    requires Sane(s) && k < |s.comps|
    ensures Sane(AddPort(s, k, dir, p, attr).0)
  {
    hide SaneComp, Attrs, FindOps, PutAttr;
    var c := s.comps[k];
    var slot := AttrSlot(Attrs(s, p), attr, p in Ports(c, dir));
    var s' := if slot.Some? then PutAttr(s, p, slot.value, attr) else s;
    if slot.Some? {
      PutKeeps(s, p, slot.value, attr);
    }
    if CountAllows(c.kind, dir, |c.rx|, |c.tx|) && p !in Ports(c, dir) && |Ports(c, dir)| < MAX_PORTS {
      AddKeepsComp(c, dir, p);
      SetKeeps(s', k, WithPorts(c, dir, Ports(c, dir) + [p]), true);
      SetKeeps(s, k, WithPorts(c, dir, Ports(c, dir) + [p]), true);
    }
  }

  lemma DeleteKeeps(s: State, k: nat, dir: Dir, p: Port)
    requires Sane(s) && k < |s.comps|
    ensures Sane(DeletePort(s, k, dir, p).0)
  {
    hide SaneComp, LastOf;
    var c := s.comps[k];
    var at := LastOf(Ports(c, dir), p);
    var s' := s.(attrs := s.attrs[p := Cleared(Attrs(s, p), dir)]);
    if at < |Ports(c, dir)| {
      DeleteKeepsComp(c, dir, at);
    }
    SetKeeps(s', k, if at == |Ports(c, dir)| then c else WithPorts(c, dir, Without(Ports(c, dir), at)), true);
  }

  lemma CoreKeeps(s: State, c: nat, ids: seq<nat>)
    requires Sane(s) && c < |s.cores|
    ensures Sane(SetCore(s, c, ids))
  {
    hide SaneComp;
  }

  lemma EmptyIsSane(name: string, kind: Kind, lcore: nat)
    ensures SaneComp(Comp(name, kind, lcore, [], []))
  {
  }

  lemma {:induction false} StepKeeps(s: State, cmd: Command)
    requires Sane(s) && Parsed(cmd)
    ensures Sane(Exec(s, cmd).0)
  {
    hide SaneComp, AddPort, DeletePort, FindFree, FindName, DropComp;
    match cmd
    case Start(name, kind, lcore, usable) =>
      var k := FindFree(s.comps);
      EmptyIsSane(name, kind, lcore);
      if usable && FindName(s.comps, name) == |s.comps| && k < |s.comps| {
        SetKeeps(s, k, Comp(name, kind, lcore, [], []), true);
        CoreKeeps(SetComp(s, k, Comp(name, kind, lcore, [], []), true), lcore, s.cores[lcore] + [k]);
      }
    case Stop(name) =>
      var k := FindName(s.comps, name);
      EmptyIsSane("", NoKind, 0);
      if k < |s.comps| {
        SetKeeps(s, k, NO_COMP, false);
        CoreKeeps(SetComp(s, k, NO_COMP, false), s.comps[k].lcore, DropComp(s.cores[s.comps[k].lcore], k));
      }
    case Add(name, dir, port, attr) =>
      var k := FindName(s.comps, name);
      if k < |s.comps| {
        AddKeeps(s, k, dir, port, attr);
      }
    case Delete(name, dir, port) =>
      var k := FindName(s.comps, name);
      if k < |s.comps| {
        DeleteKeeps(s, k, dir, port);
      }
  }

  // Runs

  /** A command is followed by a flush when it succeeds; a flush that gets past
      the interfaces clears the change flags, whatever the updates answer. */
  datatype Event = Event(cmd: Command, interfaces: bool)

  function Step(s: State, e: Event): State
    requires Shaped(s) && Parsed(e.cmd)
  {
    var (s', ok) := Exec(s, e.cmd);
    if ok && e.interfaces
    then s'.(changed := seq(|s'.changed|, _ => false), coreChanged := seq(|s'.coreChanged|, _ => false))
    else s'
  }

  // The lists of the cores

  /* Commands on ports leave the components on the cores alone. */
  lemma SameListed(s: State, t: State)
    requires AllListed(s) && t.cores == s.cores && |t.comps| == |s.comps|
    requires forall k :: 0 <= k < |s.comps| ==>
               t.comps[k].kind == s.comps[k].kind && t.comps[k].lcore == s.comps[k].lcore
    ensures AllListed(t)
  {
    forall c | 0 <= c < |t.cores| ensures Listed(t, c) {
      assert Listed(s, c);
    }
  }

  lemma StartListed(s: State, k: nat, comp: Comp)
    requires Sane(s) && AllListed(s) && k < |s.comps| && s.comps[k].kind == NoKind
    requires comp.kind != NoKind && comp.lcore < MAX_LCORE
    ensures AllListed(SetCore(SetComp(s, k, comp, true), comp.lcore, s.cores[comp.lcore] + [k]))
  {
    var t := SetCore(SetComp(s, k, comp, true), comp.lcore, s.cores[comp.lcore] + [k]);
    forall c | 0 <= c < |t.cores| ensures Listed(t, c) {
      assert Listed(s, c) && k !in s.cores[c];
      assert forall i :: 0 <= i < |s.cores[c]| ==> s.cores[c][i] in s.cores[c];
    }
  }

  /* The component that stops is in the list of its core, so that no other one is removed. */
  lemma StopListed(s: State, k: nat)
    requires Sane(s) && AllListed(s) && k < |s.comps| && s.comps[k].kind != NoKind
    ensures k in s.cores[s.comps[k].lcore]
    ensures var c := s.comps[k].lcore; AllListed(SetCore(SetComp(s, k, NO_COMP, false), c, DropComp(s.cores[c], k)))
  {
    var c0 := s.comps[k].lcore;
    assert Listed(s, c0);
    var at := LastOf(s.cores[c0], k);
    var t := SetCore(SetComp(s, k, NO_COMP, false), c0, DropComp(s.cores[c0], k));
    DistinctWithout(s.cores[c0], at);
    forall x ensures x in t.cores[c0] <==> x in s.cores[c0] && x != k {
      WithoutMembers(s.cores[c0], at, x);
    }
    hide Without, LastOf, DropComp;
    forall c | 0 <= c < |t.cores| ensures Listed(t, c) {
      assert Listed(s, c);
    }
  }

  lemma StepListed(s: State, cmd: Command)
    requires Sane(s) && AllListed(s) && Parsed(cmd)
    ensures AllListed(Exec(s, cmd).0)
  {
    hide AllListed, DropComp, FindFree, FindName;
    var t := Exec(s, cmd).0;
    match cmd
    case Start(name, kind, lcore, usable) =>
      var k := FindFree(s.comps);
      if usable && FindName(s.comps, name) == |s.comps| && k < |s.comps| {
        StartListed(s, k, Comp(name, kind, lcore, [], []));
      }
    case Stop(name) =>
      var k := FindName(s.comps, name);
      if k < |s.comps| {
        StopListed(s, k);
      }
    case Add(_, _, _, _) =>
      hide Attrs, FindOps, WithPorts;
      SameListed(s, t);
    case Delete(_, _, _) =>
      hide Attrs, Cleared, LastOf, WithPorts;
      SameListed(s, t);
  }

  // Whole runs

  ghost predicate Good(s: State) {
    Sane(s) && AllListed(s)
  }

  lemma StepIsGood(s: State, e: Event)
    requires Good(s) && Parsed(e.cmd)
    ensures Good(Step(s, e))
  {
    hide Exec, SaneComp;
    StepKeeps(s, e.cmd);
    StepListed(s, e.cmd);
    SameListed(Exec(s, e.cmd).0, Step(s, e));
  }

  /** The states after a run of events. */
  ghost predicate Reaches(s: State, run: seq<Event>, end: State)
    requires Shaped(s)
    decreases |run|
  {
    if run == [] then end == s
    else Parsed(run[0].cmd) && Shaped(Step(s, run[0])) && Reaches(Step(s, run[0]), run[1..], end)
  }

  lemma InitialIsGood()
    ensures Good(INITIAL)
  {
    EmptyIsSane("", NoKind, 0);
  }

  lemma {:induction false} RunIsGood(s: State, run: seq<Event>, end: State)
    requires Shaped(s) && Good(s) && Reaches(s, run, end)
    ensures Good(end)
    decreases |run|
  {
    if run != [] {
      hide Good, Step;
      StepIsGood(s, run[0]);
      RunIsGood(Step(s, run[0]), run[1..], end);
    }
  }

  /** Over every sequence of commands the list of a core names exactly the components on it,
      each once, and has room for them all. */
  lemma CoresListTheirComponents(run: seq<Event>, end: State, c: nat)
    requires Reaches(INITIAL, run, end) && c < |end.cores|
    ensures Listed(end, c) && |end.cores[c]| <= MAX_LCORE
  {
    InitialIsGood();
    RunIsGood(INITIAL, run, end);
    assert Listed(end, c);
    assert forall i :: 0 <= i < |end.cores[c]| ==> end.cores[c][i] in end.cores[c];
    DistinctBelow(end.cores[c], MAX_LCORE);
  }

  /** Over every sequence of commands no component has a port twice in one direction and every component keeps to the
      limits of its type. */
  lemma CommandsKeepLimits(run: seq<Event>, end: State, k: nat)
    requires Reaches(INITIAL, run, end) && k < |end.comps|
    ensures var c := end.comps[k];
            Distinct(c.rx) && Distinct(c.tx) && Limited(c.kind, |c.rx|, |c.tx|)
  {
    InitialIsGood();
    RunIsGood(INITIAL, run, end);
    assert SaneComp(end.comps[k]);
  }

  function AsKind(kind: Kind): F.Kind {
    match kind
    case Forwarder => F.Fwd
    case Merger => F.Mrg
    case _ => F.Other
  }

  function AsPorts(ports: seq<Port>, ethdev: Port -> int): (r: seq<F.Port>)
    ensures |r| == |ports|
  {
    seq(|ports|, i requires 0 <= i < |ports| => F.Port(ports[i], ethdev(ports[i])))
  }

  function AsComponent(c: Comp, ethdev: Port -> int): F.Component {
    F.Component(AsKind(c.kind), AsPorts(c.rx, ethdev), AsPorts(c.tx, ethdev))
  }

  /** No forwarder or merger is refused when it is activated after a command. */
  lemma UpdatesAreAccepted(run: seq<Event>, end: State, cmd: Command, k: nat, ethdev: Port -> int)
    requires Reaches(INITIAL, run, end) && Shaped(end) && Parsed(cmd) && k < |Exec(end, cmd).0.comps|
    ensures var c := Exec(end, cmd).0.comps[k];
            var f := AsComponent(c, ethdev);
            c.kind != Classifier ==> !(f.kind.Fwd? && |f.rx| > 1) && |f.tx| <= 1
  {
    InitialIsGood();
    RunIsGood(INITIAL, run, end);
    StepKeeps(end, cmd);
    assert SaneComp(Exec(end, cmd).0.comps[k]);
  }

  function AsTxPorts(ports: seq<Port>, vid: Port -> T.Vid, mac: Port -> nat): (r: seq<T.TxPort>)
    ensures |r| == |ports| && forall i :: 0 <= i < |r| ==> r[i] == T.TxPort(ports[i], vid(ports[i]), mac(ports[i]))
  {
    seq(|ports|, i requires 0 <= i < |ports| => T.TxPort(ports[i], vid(ports[i]), mac(ports[i])))
  }

  /** A component configured by commands never sends a packet to one port twice, multicast or not. */
  lemma NoPortGetsAPacketTwice(run: seq<Event>, end: State, k: nat, vid: Port -> T.Vid, mac: Port -> nat, h: T.Header)
    requires Reaches(INITIAL, run, end) && k < |end.comps|
    ensures var ports := AsTxPorts(end.comps[k].tx, vid, mac);
            var d := T.Destinations(T.Build(ports), h);
            forall i, j :: 0 <= i < j < |d| ==>
              0 <= d[i] < |ports| && 0 <= d[j] < |ports| && ports[d[i]].port != ports[d[j]].port
  {
    hide T.Destinations, T.Build;
    CommandsKeepLimits(run, end, k);
    var tx := end.comps[k].tx;
    var ports := AsTxPorts(tx, vid, mac);
    T.DestinationsInRange(ports, h);
    var d := T.Destinations(T.Build(ports), h);
    forall i, j | 0 <= i < j < |d|
      ensures 0 <= d[i] < |ports| && 0 <= d[j] < |ports| && ports[d[i]].port != ports[d[j]].port
    {
      assert d[i] != d[j];
      assert tx[d[i]] != tx[d[j]];
    }
  }

  /** Deleting a port just added gives back the component. */
  lemma AddThenDelete(s: State, k: nat, dir: Dir, p: Port, attr: Attr)
    requires Sane(s) && k < |s.comps| && p !in Ports(s.comps[k], dir) && AddPort(s, k, dir, p, attr).1
    ensures DeletePort(AddPort(s, k, dir, p, attr).0, k, dir, p).0.comps == s.comps
  {
    hide Attrs, FindOps, Cleared;
    var ports := Ports(s.comps[k], dir);
    var s' := AddPort(s, k, dir, p, attr).0;
    assert Ports(s'.comps[k], dir) == ports + [p];
    assert LastOf(ports + [p], p) == |ports|;
    assert Without(ports + [p], |ports|) == ports;
    assert DeletePort(s', k, dir, p).0.comps[k] == s.comps[k];
  }
}
