/** What single commands of spp_vf do to the components, the cores and the abilities of ports. */
module VfEffects {
  import opened VfCommands
  import opened Sequences
  import opened Text

  /** The elements of a list other than one, in order. */
  function Except(s: seq<nat>, x: nat): seq<nat> {
    if s == [] then [] else (if s[0] == x then [] else [s[0]]) + Except(s[1..], x)
  }

  lemma {:induction false} ExceptAll(s: seq<nat>, x: nat)
    requires x !in s
    ensures Except(s, x) == s
  {
    if s != [] {
      assert s[0] in s;
      ExceptAll(s[1..], x);
    }
  }

  lemma {:induction false} ExceptIsWithout(s: seq<nat>, k: nat)
    requires k < |s| && Distinct(s)
    ensures Except(s, s[k]) == Without(s, k)
  {
    if k == 0 {
      assert s[0] !in s[1..];
      ExceptAll(s[1..], s[0]);
      assert Without(s, 0) == s[1..];
    } else {
      assert s[1..][k-1] == s[k];
      ExceptIsWithout(s[1..], k - 1);
      assert Without(s, k) == [s[0]] + Without(s[1..], k - 1);
    }
  }

  lemma NameIs(s: State, k: nat)
    requires Sane(s) && k < |s.comps| && s.comps[k].name != ""
    ensures FindName(s.comps, s.comps[k].name) == k && s.comps[k].kind != NoKind
  {
    var n := FindName(s.comps, s.comps[k].name);
    assert n < |s.comps|;
  }

  predicate Known(s: State, name: string) {
    name != "" && exists k :: 0 <= k < |s.comps| && s.comps[k].name == name
  }

  /* Starting: refused exactly when the core is not usable, the name is taken or no record is
     free; otherwise the first free record becomes the component, without ports, and is last in the
     list of its core. */
  lemma StartTakesFreeRecord(s: State, name: string, kind: Kind, lcore: nat, usable: bool)
    requires Sane(s) && kind != NoKind && lcore < MAX_LCORE
    ensures var (t, ok) := Exec(s, Start(name, kind, lcore, usable));
            && (ok <==> usable && !Known(s, name) && exists k :: 0 <= k < |s.comps| && s.comps[k].kind == NoKind)
            && (!ok ==> t == s)
            && (ok ==> exists k :: 0 <= k < |s.comps| && s.comps[k].kind == NoKind
                         && (forall i :: 0 <= i < k ==> s.comps[i].kind != NoKind)
                         && t == s.(comps := s.comps[k := Comp(name, kind, lcore, [], [])],
                                    changed := s.changed[k := true],
                                    cores := s.cores[lcore := s.cores[lcore] + [k]],
                                    coreChanged := s.coreChanged[lcore := true]))
  {
    hide SaneComp, FindName, FindFree;
    var k := FindFree(s.comps);
    if k < |s.comps| {
      assert s.comps[k].kind == NoKind;
    }
    var n := FindName(s.comps, name);
    if n < |s.comps| {
      assert s.comps[n].name == name;
    } else if name == "" {
      NoName(s.comps);
    }
  }

  lemma NoName(comps: seq<Comp>)
    ensures FindName(comps, "") == |comps|
  {
  }

  /* Stopping: the component's record is free, its core's list loses it and keeps the others in
     order, and nothing else changes. A name that denotes nothing is no failure. */
  lemma StopFreesRecord(s: State, k: nat)
    requires Good(s) && k < |s.comps| && s.comps[k].name != ""
    ensures var c := s.comps[k].lcore;
            Exec(s, Stop(s.comps[k].name))
            == (s.(comps := s.comps[k := Comp("", NoKind, 0, [], [])], changed := s.changed[k := false],
                   cores := s.cores[c := Except(s.cores[c], k)], coreChanged := s.coreChanged[c := true]), true)
  {
    NameIs(s, k);
    StopListed(s, k);
    var ids := s.cores[s.comps[k].lcore];
    assert Listed(s, s.comps[k].lcore);
    hide AllListed, Listed, Sane, FindName;
    ExceptIsWithout(ids, LastOf(ids, k));
  }

  lemma UnknownName(s: State, name: string, dir: Dir, p: Port, attr: Attr)
    requires Sane(s) && (name == "" || forall k :: 0 <= k < |s.comps| ==> s.comps[k].name != name)
    ensures Exec(s, Stop(name)) == (s, true)
    ensures Exec(s, Add(name, dir, p, attr)) == (s, false) && Exec(s, Delete(name, dir, p)) == (s, false)
  {
    NoName(s.comps);
    if name != "" {
      NotFound(s.comps, name);
    }
    hide FindName;
  }

  lemma NotFound(comps: seq<Comp>, name: string)
    requires forall k :: 0 <= k < |comps| ==> comps[k].name != name
    ensures FindName(comps, name) == |comps|
  {
  }

  // Ports

  /** Whether a component of the type, with the ports given in a direction, may have one more. */
  predicate Allows(kind: Kind, dir: Dir, ports: seq<Port>) {
    match kind
    case Forwarder => ports == []
    case Merger => dir == Rx || ports == []
    case Classifier => dir == Tx || ports == []
    case NoKind => false
  }

  lemma CountIs(c: Comp, dir: Dir)
    requires SaneComp(c)
    ensures CountAllows(c.kind, dir, |c.rx|, |c.tx|) <==> Allows(c.kind, dir, Ports(c, dir))
  {
  }

  /** Some slot has the given operation. */
  predicate HasOps(attrs: seq<Attr>, ops: AttrOps) {
    exists j :: 0 <= j < |attrs| && attrs[j].ops == ops
  }

  /** The first slot with the given operation holds an ability, and all other slots and ports
      are as before. */
  predicate Gained(s: State, t: State, p: Port, ops: AttrOps, attr: Attr) {
    && (forall q :: q in t.attrs.Keys + s.attrs.Keys && q != p ==> Attrs(t, q) == Attrs(s, q))
    && exists j :: 0 <= j < |Attrs(s, p)| && Attrs(s, p)[j].ops == ops
                   && (forall i :: 0 <= i < j ==> Attrs(s, p)[i].ops != ops)
                   && Attrs(t, p) == Attrs(s, p)[j := attr]
  }

  lemma {:induction false} FirstOps(attrs: seq<Attr>, ops: AttrOps)
    ensures var k := FindOps(attrs, ops);
            && (k < |attrs| <==> HasOps(attrs, ops))
            && forall i :: 0 <= i < k ==> attrs[i].ops != ops
  {
    if attrs != [] && attrs[0].ops != ops {
      FirstOps(attrs[1..], ops);
      var k := FindOps(attrs[1..], ops);
      forall i | 0 <= i < k + 1 ensures attrs[i].ops != ops {
        assert i > 0 ==> attrs[i] == attrs[1..][i-1];
      }
      if HasOps(attrs, ops) {
        var j :| 0 <= j < |attrs| && attrs[j].ops == ops;
        assert attrs[1..][j-1] == attrs[j];
      }
    }
  }

  lemma PutIsGained(s: State, t: State, p: Port, ops: AttrOps, attr: Attr)
    requires FindOps(Attrs(s, p), ops) < |Attrs(s, p)|
    requires t.attrs == PutAttr(s, p, FindOps(Attrs(s, p), ops), attr).attrs
    ensures Gained(s, t, p, ops, attr)
  {
    FirstOps(Attrs(s, p), ops);
    var j := FindOps(Attrs(s, p), ops);
    hide FindOps;
    assert Attrs(t, p) == Attrs(s, p)[j := attr];
  }

  /** The component with one more port in a direction. */
  function WithOneMore(c: Comp, dir: Dir, p: Port): Comp {
    match dir
    case Rx => Comp(c.name, c.kind, c.lcore, c.rx + [p], c.tx)
    case Tx => Comp(c.name, c.kind, c.lcore, c.rx, c.tx + [p])
  }

  /* Adding a port the component does not have: refused exactly when the type allows no more,
     the component is full or there is no free slot for the ability given; otherwise the port is the
     last one in its direction and has the ability. */
  lemma AddPutsPortLast(s: State, k: nat, dir: Dir, p: Port, attr: Attr)
    requires Sane(s) && k < |s.comps| && s.comps[k].name != "" && p !in Ports(s.comps[k], dir)
    ensures var c := s.comps[k];
            var (t, ok) := Exec(s, Add(c.name, dir, p, attr));
            && (ok <==> Allows(c.kind, dir, Ports(c, dir)) && |Ports(c, dir)| < MAX_PORTS
                        && (attr.ops == NoOps || HasOps(Attrs(s, p), NoOps)))
            && (!ok ==> t == s)
            && (ok ==> t == s.(comps := s.comps[k := WithOneMore(c, dir, p)], changed := s.changed[k := true],
                               attrs := t.attrs)
                       && if attr.ops == NoOps then t.attrs == s.attrs else Gained(s, t, p, NoOps, attr))
  {
    var c := s.comps[k];
    NameIs(s, k);
    CountIs(c, dir);
    FirstOps(Attrs(s, p), NoOps);
    assert WithPorts(c, dir, Ports(c, dir) + [p]) == WithOneMore(c, dir, p);
    hide SaneComp, FindName, FindOps, CountAllows, Allows, HasOps, Gained, Attrs, WithPorts, WithOneMore, Sane;
    var (t, ok) := Exec(s, Add(c.name, dir, p, attr));
    if ok && attr.ops != NoOps {
      PutIsGained(s, t, p, NoOps, attr);
    }
  }

  /* Adding a port the component has: the tag it adds is replaced, if it adds one; nothing else
     changes. */
  lemma AddAgainReplacesTag(s: State, k: nat, dir: Dir, p: Port, attr: Attr)
    requires Sane(s) && k < |s.comps| && s.comps[k].name != "" && p in Ports(s.comps[k], dir)
    ensures var c := s.comps[k];
            var (t, ok) := Exec(s, Add(c.name, dir, p, attr));
            && (ok <==> Allows(c.kind, dir, Ports(c, dir))
                        && (attr.ops == AddVlan ==> HasOps(Attrs(s, p), AddVlan)))
            && (!ok || attr.ops != AddVlan ==> t == s)
            && (ok && attr.ops == AddVlan ==>
                  t == s.(changed := s.changed[k := true], attrs := t.attrs) && Gained(s, t, p, AddVlan, attr))
  {
    var c := s.comps[k];
    NameIs(s, k);
    CountIs(c, dir);
    FirstOps(Attrs(s, p), AddVlan);
    hide SaneComp, FindName, FindOps, CountAllows, Allows, HasOps, Gained, Attrs, Sane;
    var (t, ok) := Exec(s, Add(c.name, dir, p, attr));
    if ok && attr.ops == AddVlan {
      PutIsGained(s, t, p, AddVlan, attr);
    }
  }

  /** The component without a port in a direction. */
  function WithOneLess(c: Comp, dir: Dir, p: Port): Comp {
    match dir
    case Rx => Comp(c.name, c.kind, c.lcore, Except(c.rx, p), c.tx)
    case Tx => Comp(c.name, c.kind, c.lcore, c.rx, Except(c.tx, p))
  }

  lemma LessIs(c: Comp, dir: Dir, p: Port)
    requires SaneComp(c)
    ensures var at := LastOf(Ports(c, dir), p);
            WithOneLess(c, dir, p)
            == if at == |Ports(c, dir)| then c else WithPorts(c, dir, Without(Ports(c, dir), at))
  {
    var ports := Ports(c, dir);
    var at := LastOf(ports, p);
    hide Without, LastOf, Except;
    if at < |ports| {
      ExceptIsWithout(ports, at);
    } else {
      ExceptAll(ports, p);
    }
  }

  /** A port lost exactly its abilities of a direction, and no other port did. */
  ghost predicate Lost(s: State, t: State, p: Port, dir: Dir) {
    && (forall q :: q in t.attrs.Keys + s.attrs.Keys && q != p ==> Attrs(t, q) == Attrs(s, q))
    && |Attrs(t, p)| == |Attrs(s, p)|
    && forall i :: 0 <= i < |Attrs(s, p)| ==>
         var a := Attrs(s, p)[i];
         Attrs(t, p)[i] == if a.ops != NoOps && a.dir == dir then Attr(NoOps, Rx, 0) else a
  }

  lemma ClearedIsLost(s: State, t: State, p: Port, dir: Dir)
    requires t.attrs == s.attrs[p := Cleared(Attrs(s, p), dir)]
    ensures Lost(s, t, p, dir)
  {
  }

  /* Deleting a port: the component loses it in that direction and keeps the others in order, the
     port loses exactly its abilities of that direction. */
  lemma DeleteRemovesPort(s: State, k: nat, dir: Dir, p: Port)
    requires Sane(s) && k < |s.comps| && s.comps[k].name != ""
    ensures var c := s.comps[k];
            var (t, ok) := Exec(s, Delete(c.name, dir, p));
            && ok && Lost(s, t, p, dir)
            && t == s.(comps := s.comps[k := WithOneLess(c, dir, p)], changed := s.changed[k := true], attrs := t.attrs)
  {
    NameIs(s, k);
    assert SaneComp(s.comps[k]);
    LessIs(s.comps[k], dir, p);
    hide SaneComp, FindName, Without, LastOf, WithOneLess, WithPorts, Lost, Attrs;
    ClearedIsLost(s, Exec(s, Delete(s.comps[k].name, dir, p)).0, p, dir);
  }
}
