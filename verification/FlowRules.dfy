/** Flow rules of a port: the list kept by spp_primary and the rules the device holds. */
module FlowRules {
  import opened Sequences

  const UINT32_MAX := 0xffff_ffff

  type Handle = nat

  datatype Rule = Rule(id: nat, handle: Handle)

  /** `rules` is the list, newest first; `live` are the handles the device holds. */
  datatype Port = Port(rules: seq<Rule>, live: set<Handle>)

  const NO_RULES := Port([], {})

  /** Outcomes of the foreign calls of an operation: the device creates the rule and names it
      by a handle that is not in use, the rule description can be stored, and the device gives
      the rule up again if it cannot. */
  datatype Event =
    | Create(device: bool, flow: Handle, stored: bool, rollback: bool)
    | Destroy(id: nat, used: bool, device: bool)
    | Flush(used: bool, left: set<Handle>)

  /** The position of a rule in the list, or its length. */
  function Find(rules: seq<Rule>, id: nat): (k: nat)
    ensures k <= |rules| && (k < |rules| ==> rules[k].id == id)
    ensures forall i :: 0 <= i < k ==> rules[i].id != id
  {
    if rules == [] || rules[0].id == id then 0 else 1 + Find(rules[1..], id)
  }

  /** The ID of the next rule, if there is one left. */
  predicate HasNextId(rules: seq<Rule>) {
    rules != [] ==> rules[0].id < UINT32_MAX
  }

  function NextId(rules: seq<Rule>): nat {
    if rules == [] then 0 else rules[0].id + 1
  }

  predicate Enabled(p: Port, e: Event) {
    (e.Flush? ==> e.left <= p.live) && (e.Create? && e.device ==> e.flow !in p.live)
  }

  function ExecCreate(p: Port, device: bool, flow: Handle, stored: bool, rollback: bool): Port {
    if !device then p
    else
      var p := p.(live := p.live + {flow});
      if !HasNextId(p.rules) || !stored then
        if rollback then p.(live := p.live - {flow}) else p
      else
        p.(rules := [Rule(NextId(p.rules), flow)] + p.rules)
  }

  function ExecDestroy(p: Port, id: nat, used: bool, device: bool): Port {
    var k := Find(p.rules, id);
    if !used || k == |p.rules| || !device then p
    else p.(live := p.live - {p.rules[k].handle}, rules := Without(p.rules, k))
  }

  function ExecFlush(p: Port, used: bool, left: set<Handle>): Port {
    if !used then p else p.(live := left, rules := [])
  }

  function Apply(p: Port, e: Event): Port {
    match e
    case Create(device, flow, stored, rollback) => ExecCreate(p, device, flow, stored, rollback)
    case Destroy(id, used, device) => ExecDestroy(p, id, used, device)
    case Flush(used, left) => ExecFlush(p, used, left)
  }

  predicate IsRun(p: Port, run: seq<Event>)
    decreases |run|
  {
    run == [] || (Enabled(p, run[0]) && IsRun(Apply(p, run[0]), run[1..]))
  }

  function End(p: Port, run: seq<Event>): Port
    requires IsRun(p, run)
    decreases |run|
  {
    if run == [] then p else End(Apply(p, run[0]), run[1..])
  }

  /* ----- Invariants ----- */

  /** IDs strictly descend along the list, so none occurs twice. */
  ghost predicate Descending(rules: seq<Rule>) {
    && (forall i, j :: 0 <= i < j < |rules| ==> rules[i].id > rules[j].id)
    && forall i :: 0 <= i < |rules| ==> rules[i].id <= UINT32_MAX
  }

  ghost function Handles(rules: seq<Rule>): set<Handle> {
    set r | r in rules :: r.handle
  }

  ghost predicate DistinctHandles(rules: seq<Rule>) {
    forall i, j :: 0 <= i < j < |rules| ==> rules[i].handle != rules[j].handle
  }

  /** The handles the list records, each once, are exactly those the device holds. */
  ghost predicate Shadows(p: Port) {
    DistinctHandles(p.rules) && Handles(p.rules) == p.live
  }

  /** The device does what it is asked to: rules rolled back are gone, and so are all rules
      after a flush. */
  predicate Obeys(p: Port, e: Event) {
    match e
    case Create(device, _, stored, rollback) => device && (!HasNextId(p.rules) || !stored) ==> rollback
    case Destroy(_, _, _) => true
    case Flush(used, left) => used ==> left == {}
  }

  lemma DescendingStep(p: Port, e: Event)
    requires Descending(p.rules)
    ensures Descending(Apply(p, e).rules)
  {
  }

  lemma HandlesOfSplit(rules: seq<Rule>, k: nat)
    requires k < |rules| && DistinctHandles(rules)
    ensures Handles(Without(rules, k)) == Handles(rules) - {rules[k].handle}
  {
    var rest := Without(rules, k);
    forall h | h in Handles(rules) && h != rules[k].handle ensures h in Handles(rest) {
      var i :| 0 <= i < |rules| && rules[i].handle == h;
      assert rest[if i < k then i else i - 1] == rules[i];
    }
    forall h | h in Handles(rest) ensures h in Handles(rules) && h != rules[k].handle {
      var i :| 0 <= i < |rest| && rest[i].handle == h;
      assert rest[i] == rules[if i < k then i else i + 1];
    }
  }

  lemma CreateShadows(p: Port, device: bool, flow: Handle, stored: bool, rollback: bool)
    requires Shadows(p) && (device ==> flow !in p.live)
    ensures Shadows(ExecCreate(p, device, flow, stored, rollback)) <==> Obeys(p, Create(device, flow, stored, rollback))
  {
    if device && HasNextId(p.rules) && stored {
      var rules := [Rule(NextId(p.rules), flow)] + p.rules;
      assert Handles(rules) == Handles(p.rules) + {flow} by {
        assert rules[0].handle == flow;
        forall r | r in p.rules ensures r in rules {
        }
      }
      assert forall i :: 0 <= i < |p.rules| ==> p.rules[i] in p.rules;
    }
  }

  /* One operation keeps list and device in step exactly when the device obeys. */
  lemma {:induction false} ShadowsStep(p: Port, e: Event)
    requires Shadows(p) && Enabled(p, e)
    ensures Shadows(Apply(p, e)) <==> Obeys(p, e)
  {
    match e
    case Create(device, flow, stored, rollback) => CreateShadows(p, device, flow, stored, rollback);
    case Destroy(id, used, device) =>
      var k := Find(p.rules, id);
      if k < |p.rules| {
        HandlesOfSplit(p.rules, k);
      }
    case Flush(used, left) =>
      assert Handles([]) == {};
  }

  ghost predicate AlwaysObeys(p: Port, run: seq<Event>)
    requires IsRun(p, run)
    decreases |run|
  {
    run == [] || (Obeys(p, run[0]) && AlwaysObeys(Apply(p, run[0]), run[1..]))
  }

  /* After any operations the list descends strictly in rule ID. */
  lemma {:induction false} ListStaysDescending(p: Port, run: seq<Event>)
    requires IsRun(p, run) && Descending(p.rules)
    ensures Descending(End(p, run).rules)
    decreases |run|
  {
    hide Descending;
    if run != [] {
      DescendingStep(p, run[0]);
      ListStaysDescending(Apply(p, run[0]), run[1..]);
    }
  }

  /* While the device obeys, the list records exactly the rules the device holds. */
  lemma {:induction false} ListShadowsDevice(p: Port, run: seq<Event>)
    requires IsRun(p, run) && AlwaysObeys(p, run) && Shadows(p)
    ensures Shadows(End(p, run))
    decreases |run|
  {
    hide Shadows;
    if run != [] {
      ShadowsStep(p, run[0]);
      ListShadowsDevice(Apply(p, run[0]), run[1..]);
    }
  }

  /* ----- What single operations do ----- */

  /** The rules with any other ID, in order. */
  function Others(rules: seq<Rule>, id: nat): seq<Rule> {
    if rules == [] then []
    else (if rules[0].id == id then [] else [rules[0]]) + Others(rules[1..], id)
  }

  lemma {:induction false} OthersIsAll(rules: seq<Rule>, id: nat)
    requires forall i :: 0 <= i < |rules| ==> rules[i].id != id
    ensures Others(rules, id) == rules
  {
    if rules != [] {
      OthersIsAll(rules[1..], id);
    }
  }

  lemma {:induction false} OthersIsWithout(rules: seq<Rule>, k: nat)
    requires k < |rules| && Descending(rules)
    ensures Others(rules, rules[k].id) == Without(rules, k)
  {
    if k == 0 {
      OthersIsAll(rules[1..], rules[0].id);
      assert Without(rules, 0) == rules[1..];
    } else {
      assert Descending(rules[1..]) && rules[1..][k-1] == rules[k];
      OthersIsWithout(rules[1..], k - 1);
      assert Without(rules, k) == [rules[0]] + Without(rules[1..], k - 1);
    }
  }

  /* A destroy that the device carries out removes the rule with the ID asked for, and the
     device loses the handle recorded for it. All other rules stay, with their handles and in
     order. Any other destroy changes nothing. */
  lemma DestroyRemovesOneRule(p: Port, id: nat, used: bool, device: bool)
    requires Descending(p.rules)
    ensures var q := ExecDestroy(p, id, used, device);
            if used && device && (exists r :: r in p.rules && r.id == id) then
              && q.rules == Others(p.rules, id) && |q.rules| == |p.rules| - 1
              && (forall r :: r in q.rules ==> r.id != id)
              && forall r :: r in p.rules && r.id == id ==> q.live == p.live - {r.handle}
            else q == p
  {
    var k := Find(p.rules, id);
    if k < |p.rules| {
      assert p.rules[k] in p.rules;
      OthersIsWithout(p.rules, k);
      var q := Without(p.rules, k);
      forall r | r in q ensures r.id != id {
        var i :| 0 <= i < |q| && q[i] == r;
        assert q[i] == p.rules[if i < k then i else i + 1];
      }
      forall r | r in p.rules && r.id == id ensures r == p.rules[k] {
        var i :| 0 <= i < |p.rules| && p.rules[i] == r;
      }
    }
  }

  /* A create that the device carries out puts a rule with the handle given in front, with an ID
     above all others, unless IDs are exhausted or the rule cannot be stored; then, and if
     the device refuses, the rules stay. */
  lemma CreatePutsRuleFirst(p: Port, device: bool, flow: Handle, stored: bool, rollback: bool)
    requires Descending(p.rules)
    ensures var q := ExecCreate(p, device, flow, stored, rollback);
            var exhausted := exists r :: r in p.rules && r.id == 0xffff_ffff;
            if device && stored && !exhausted then
              && |q.rules| == |p.rules| + 1 && q.rules[1..] == p.rules && q.rules[0].handle == flow
              && (if p.rules == [] then q.rules[0].id == 0 else q.rules[0].id == p.rules[0].id + 1)
              && (forall r :: r in p.rules ==> r.id < q.rules[0].id)
              && q.live == p.live + {flow}
            else
              && q.rules == p.rules
              && q.live == (if !device then p.live else if rollback then p.live + {flow} - {flow} else p.live + {flow})
  {
    forall r | r in p.rules ensures r.id <= p.rules[0].id {
    }
    assert p.rules != [] ==> p.rules[0] in p.rules;
  }

  /* A flush leaves no rule in the list, and the device with what it kept. */
  lemma FlushEmptiesList(p: Port, used: bool, left: set<Handle>)
    ensures var q := ExecFlush(p, used, left);
            if used then (forall r :: r !in q.rules) && q.live == left else q == p
  {
  }

  /* ----- The list in memory ----- */

  class FlowRule {
    var id: nat
    var prev: FlowRule?
    var handle: Handle

    constructor (id: nat, prev: FlowRule?, handle: Handle)
      ensures this.id == id && this.prev == prev && this.handle == handle
    {
      this.id, this.prev, this.handle := id, prev, handle;
    }
  }

  /** What the nodes record, newest rule first. */
  ghost predicate Records(nodes: seq<FlowRule>, rules: seq<Rule>)
    reads nodes`id, nodes`handle
  {
    && |rules| == |nodes|
    && (forall i :: 0 <= i < |nodes| ==> rules[i] == Rule(nodes[i].id, nodes[i].handle))
  }

  lemma RecordsMore(nodes: seq<FlowRule>, rules: seq<Rule>, rule: FlowRule)
    requires Records(nodes, rules) && rule !in nodes && Distinct(nodes)
    ensures Records([rule] + nodes, [Rule(rule.id, rule.handle)] + rules) && Distinct([rule] + nodes)
  {
  }

  lemma RecordsWithout(nodes: seq<FlowRule>, rules: seq<Rule>, k: nat)
    requires k < |nodes| && Records(nodes, rules)
    ensures Records(Without(nodes, k), Without(rules, k))
  {
  }

  /** The list of one port, and the device behind it. `nodes` and `rules` are the list. */
  class PortFlow {
    var flowList: FlowRule?
    var live: set<Handle>
    ghost var nodes: seq<FlowRule>
    ghost var rules: seq<Rule>

    constructor ()
      ensures Valid() && View() == NO_RULES
    {
      flowList, live, nodes, rules := null, {}, [], [];
    }

    ghost function At(k: nat): FlowRule?
      reads `nodes
    {
      if k < |nodes| then nodes[k] else null
    }

    ghost predicate Valid()
      reads `flowList, `nodes, `rules, nodes
    {
      && flowList == At(0) && Records(nodes, rules) && Distinct(nodes)
      && (forall i :: 0 <= i < |nodes| ==> nodes[i].prev == At(i + 1))
    }

    ghost function View(): Port
      reads this
    {
      Port(rules, live)
    }

    method PutFirst(id: nat, handle: Handle)
      requires Valid()
      modifies `flowList, `nodes, `rules
      ensures Valid() && rules == [Rule(id, handle)] + old(rules)
    {
      hide Distinct, Records;
      var rule := new FlowRule(id, flowList, handle);
      RecordsMore(nodes, rules, rule);
      flowList := rule;
      nodes, rules := [rule] + nodes, [Rule(id, handle)] + rules;
    }

    method DropFirst()
      requires Valid() && nodes != []
      modifies `flowList, `nodes, `rules
      ensures Valid() && rules == old(rules[1..]) && nodes == old(nodes[1..])
    {
      flowList := flowList.prev;
      nodes, rules := nodes[1..], rules[1..];
    }

    /* Unlinks the rule at position `k` through the rule before it. */
    method DropAfter(parent: FlowRule, rule: FlowRule, ghost k: nat)
      requires Valid() && 0 < k < |nodes| && rule == nodes[k] && parent == nodes[k-1]
      modifies `nodes, `rules, parent`prev
      ensures Valid() && rules == Without(old(rules), k)
    {
      DistinctWithout(nodes, k);
      RecordsWithout(nodes, rules, k);
      assert forall i :: 0 <= i < |nodes| && i != k - 1 ==> nodes[i] != parent;
      hide Distinct, Without, Records;
      parent.prev := rule.prev;
      nodes, rules := Without(nodes, k), Without(rules, k);
    }

    method Rollback(flow: Handle, rollback: bool)
      modifies `live
      ensures live == if rollback then old(live) - {flow} else old(live)
    {
      if rollback {
        live := live - {flow};
      }
    }

    /* Enters a rule the device has accepted into the list, or has the device give it up. */
    method Enter(flow: Handle, stored: bool, rollback: bool) returns (id: int)
      requires Valid()
      modifies `flowList, `nodes, `rules, `live
      ensures Valid()
      ensures if HasNextId(old(rules)) && stored
              then rules == [Rule(NextId(old(rules)), flow)] + old(rules) && live == old(live)
                   && id == NextId(old(rules))
              else rules == old(rules) && live == (if rollback then old(live) - {flow} else old(live)) && id == -1
    {
      hide Distinct;
      if (flowList != null && flowList.id >= UINT32_MAX) || !stored {
        Rollback(flow, rollback);
        id := -1;
      } else {
        id := if flowList != null then flowList.id + 1 else 0;
        PutFirst(id, flow);
      }
    }

    method Create(device: bool, flow: Handle, stored: bool, rollback: bool) returns (id: int)
      requires Valid() && (device ==> flow !in live)
      modifies this
      ensures Valid() && View() == ExecCreate(old(View()), device, flow, stored, rollback)
      ensures if rules == old(rules) then id == -1 else rules[0].id == id
    {
      hide Valid;
      id := -1;
      if device {
        live := live + {flow};
        id := Enter(flow, stored, rollback);
      }
    }

    /* The search loop of `exec_flow_destroy`: the rule and the one before it. */
    method Search(id: nat) returns (rule: FlowRule?, parent: FlowRule?, ghost k: nat)
      requires Valid()
      ensures k == Find(rules, id) && rule == At(k)
      ensures parent == if k == 0 then null else nodes[k-1]
    {
      parent, rule, k := null, flowList, 0;
      while rule != null && rule.id != id
        invariant 0 <= k <= |nodes| && rule == At(k)
        invariant parent == if k == 0 then null else nodes[k-1]
        invariant forall i :: 0 <= i < k ==> rules[i].id != id
        decreases |nodes| - k
      {
        parent := rule;
        rule := rule.prev;
        k := k + 1;
      }
      FindIs(rules, id, k);
    }

    method Drop(rule: FlowRule, parent: FlowRule?, ghost k: nat)
      requires Valid() && k < |nodes| && rule == nodes[k]
      requires parent == if k == 0 then null else nodes[k-1]
      modifies `flowList, `nodes, `rules, nodes
      ensures Valid() && rules == Without(old(rules), k)
    {
      if parent == null {
        DropFirst();
      } else {
        DropAfter(parent, rule, k);
      }
    }

    method Destroy(id: nat, used: bool, device: bool) returns (found: bool)
      requires Valid()
      modifies this, nodes
      ensures Valid() && View() == ExecDestroy(old(View()), id, used, device)
      ensures found <==> used && device && exists r :: r in old(rules) && r.id == id
    {
      hide Find, Without;
      found := false;
      if used {
        var rule, parent, k := Search(id);
        if rule != null && device {
          live := live - {rule.handle};
          Drop(rule, parent, k);
          found := true;
        }
      }
    }

    method Flush(used: bool, left: set<Handle>)
      requires Valid() && left <= live
      modifies this, nodes
      ensures Valid() && View() == ExecFlush(old(View()), used, left)
    {
      if !used {
        return;
      }
      live := left;
      while flowList != null
        modifies `flowList, `nodes, `rules
        invariant Valid()
        decreases |nodes|
      {
        DropFirst();
      }
    }
  }

  lemma {:induction false} FindIs(rules: seq<Rule>, id: nat, k: nat)
    requires k <= |rules| && (k < |rules| ==> rules[k].id == id)
    requires forall i :: 0 <= i < k ==> rules[i].id != id
    ensures Find(rules, id) == k
  {
    if k > 0 {
      FindIs(rules[1..], id, k - 1);
    }
  }
}
