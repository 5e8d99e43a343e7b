/**
 * The objects of flow items and actions as bytes: what the writes of the parser
 * leave in memory (src/primary/flow/common.c:285-615).
 */
module FlowObjects {
  import opened Text
  import opened FlowParser
  import opened FlowMeaning
  import opened FlowValues
  import opened Bytes
  import FlowMask

  // Writes to an object

  predicate Inside(d: Detail, size: nat) {
    d.offset + d.size <= size
  }

  predicate Disjoint(d: Detail, e: Detail) {
    d.offset + d.size <= e.offset || e.offset + e.size <= d.offset
  }

  function FieldAt(b: seq<bv8>, d: Detail): (f: seq<bv8>)
    requires Inside(d, |b|)
    ensures |f| == d.size
  {
    b[d.offset..d.offset+d.size]
  }

  /** The bytes of a field after a write to it. */
  function FieldBytes(host: Host, w: Write, was: seq<bv8>): (b: seq<bv8>)
    ensures |b| == |was|
  {
    match w
    case Value(d, text) => Store(host, d.conversion, text, was)
    case Ones(_) => seq(|was|, _ => 0xff)
    case Leading(_, bits) => seq(|was|, i requires i >= 0 => FlowMask.Ones(FlowMask.Share(bits, i)))
  }

  /** An object after a write to one of its fields. */
  function Written(host: Host, b: seq<bv8>, w: Write): (r: seq<bv8>)
    ensures |r| == |b|
  {
    var d := w.field;
    if !Inside(d, |b|) then b
    else b[..d.offset] + FieldBytes(host, w, FieldAt(b, d)) + b[d.offset+d.size..]
  }

  /** An object of the given size, zero at first, after the writes to it. */
  function Memory(host: Host, size: nat, ws: seq<Write>): (b: seq<bv8>)
    ensures |b| == size
  {
    if ws == [] then seq(size, _ => 0) else Written(host, Memory(host, size, ws[..|ws|-1]), ws[|ws|-1])
  }

  lemma MemoryMore(host: Host, size: nat, ws: seq<Write>, w: Write)
    ensures Memory(host, size, ws + [w]) == Written(host, Memory(host, size, ws), w)
  {
    assert (ws + [w])[..|ws|] == ws;
  }

  /* A write leaves the other fields alone. */
  lemma OtherField(host: Host, b: seq<bv8>, w: Write, d: Detail)
    requires Inside(d, |b|) && Disjoint(w.field, d)
    ensures FieldAt(Written(host, b, w), d) == FieldAt(b, d)
  {
  }

  lemma OwnField(host: Host, b: seq<bv8>, w: Write)
    requires Inside(w.field, |b|)
    ensures FieldAt(Written(host, b, w), w.field) == FieldBytes(host, w, FieldAt(b, w.field))
  {
  }

  /* A field is as the last write to it left it. */
  lemma {:induction false} LastWrite(host: Host, size: nat, ws: seq<Write>, w: Write, later: seq<Write>)
    requires Inside(w.field, size) && forall i :: 0 <= i < |later| ==> Disjoint(later[i].field, w.field)
    ensures FieldAt(Memory(host, size, ws + [w] + later), w.field)
         == FieldBytes(host, w, FieldAt(Memory(host, size, ws), w.field))
    decreases |later|
  {
    hide Memory, Written, FieldBytes, FieldAt;
    if later == [] {
      assert ws + [w] + later == ws + [w];
      MemoryMore(host, size, ws, w);
      OwnField(host, Memory(host, size, ws), w);
    } else {
      var n := |later| - 1;
      LastWrite(host, size, ws, w, later[..n]);
      assert ws + [w] + later == ws + [w] + later[..n] + [later[n]];
      MemoryMore(host, size, ws + [w] + later[..n], later[n]);
      OtherField(host, Memory(host, size, ws + [w] + later[..n]), later[n], w.field);
    }
  }

  // Clauses

  lemma {:induction false} WritesConcat(details: seq<Detail>, a: seq<Clause>, b: seq<Clause>, part: Part)
    ensures Writes(details, a + b, part) == Writes(details, a, part) + Writes(details, b, part)
  {
    hide ClauseWrites;
    if a == [] {
      assert a + b == b;
    } else {
      assert (a + b)[1..] == a[1..] + b;
      WritesConcat(details, a[1..], b, part);
    }
  }

  /** No clause is about a field that overlaps `d`. */
  predicate Avoid(details: seq<Detail>, cs: seq<Clause>, d: Detail) {
    forall i :: 0 <= i < |cs| ==>
      var e := FindDetail(details, cs[i].field); e.Some? ==> Disjoint(e.value, d)
  }

  lemma {:induction false} AvoidingWrites(details: seq<Detail>, cs: seq<Clause>, d: Detail, part: Part)
    requires Avoid(details, cs, d)
    ensures forall i :: 0 <= i < |Writes(details, cs, part)| ==> Disjoint(Writes(details, cs, part)[i].field, d)
  {
    hide FindDetail, Disjoint;
    if cs != [] {
      AvoidingWrites(details, cs[1..], d, part);
      assert forall i :: 0 <= i < |ClauseWrites(details, cs[0], part)| ==>
        ClauseWrites(details, cs[0], part)[i].field == FindDetail(details, cs[0].field).value;
    }
  }

  function PartOf(o: Objects, part: Part): Object {
    match part
    case OnSpec => o.spec
    case OnLast => o.last
    case OnMask => o.mask
  }

  /** The object of an item: unless a later clause is about the same bytes, a field is as the
      last clause about it left it. */
  lemma FieldOfItem(host: Host, details: seq<Detail>, size: nat, cs: seq<Clause>, c: Clause, later: seq<Clause>,
                    part: Part, w: Write)
    requires ClauseWrites(details, c, part) == [w] && Inside(w.field, size) && Avoid(details, later, w.field)
    ensures var o := PartOf(After(details, cs + [c] + later, NO_OBJECTS), part);
            && o.Some?
            && FieldAt(Memory(host, size, o.value), w.field)
               == FieldBytes(host, w, FieldAt(Memory(host, size, Writes(details, cs, part)), w.field))
  {
    WritesConcat(details, cs + [c], later, part);
    WritesConcat(details, cs, [c], part);
    assert [c][1..] == [] && Writes(details, [c], part) == [w];
    AvoidingWrites(details, later, w.field, part);
    hide Writes, FieldAt, FieldBytes, Memory;
    LastWrite(host, size, Writes(details, cs, part), w, Writes(details, later, part));
  }

  // Masks

  /** Bit `k` of a field, most significant first across its bytes. */
  predicate BitOf(f: seq<bv8>, k: nat)
    requires k < |f| * 8
  {
    FlowMask.IsSet(f[k / 8], k % 8)
  }

  /** Which bits of its field a clause leaves set in the mask. */
  predicate MaskedBit(c: Clause, k: nat)
    requires c.Match?
  {
    c.how == "prefix" ==> Strtoul(c.text, 10).Some? && k < ToUint32(Strtoul(c.text, 10).value)
  }

  lemma MaskBits(host: Host, w: Write, was: seq<bv8>, k: nat)
    requires !w.Value? && k < |was| * 8
    ensures BitOf(FieldBytes(host, w, was), k) <==> (w.Leading? ==> k < w.bits)
  {
    if w.Leading? {
      FlowMask.PrefixBits(w.bits, k);
    } else {
      FlowMask.OnesBits(8, k % 8);
    }
  }

  /**
   * The mask of an item: whatever came before, and unless a later clause is
   * about the same bytes, a clause that gives a field by prefix leaves exactly
   * the first bits of the field set, and one that says "is" leaves them all set.
   */
  lemma MaskOfItem(convert: Converts, host: Host, details: seq<Detail>, size: nat,
                   cs: seq<Clause>, c: Clause, later: seq<Clause>, k: nat)
    requires ClauseValid(convert, details, c) && c.Match? && (c.how == "prefix" || c.how == "is")
    requires Inside(FindDetail(details, c.field).value, size) && k < FindDetail(details, c.field).value.size * 8
    requires Avoid(details, later, FindDetail(details, c.field).value)
    ensures var mask := After(details, cs + [c] + later, NO_OBJECTS).mask;
            && mask.Some?
            && (BitOf(FieldAt(Memory(host, size, mask.value), FindDetail(details, c.field).value), k) <==>
                  MaskedBit(c, k))
  {
    hide FindDetail, Strtoul, Memory, BitOf, FieldAt, FieldBytes, After, Avoid;
    var d := FindDetail(details, c.field).value;
    var w := if c.how == "prefix" then Leading(d, ToUint32(Strtoul(c.text, 10).value)) else Ones(d);
    FieldOfItem(host, details, size, cs, c, later, OnMask, w);
    MaskBits(host, w, FieldAt(Memory(host, size, Writes(details, cs, OnMask)), d), k);
  }

  /** The mask as the code writes it, in place: the prefix loops do what a `Leading` write stands for. */
  method WritePrefix(host: Host, mask: array<bv8>, d: Detail, prefix: nat) returns (ok: bool)
    requires Inside(d, mask.Length)
    modifies mask
    ensures ok <==> prefix <= d.size * 8
    ensures mask[..] == if ok then Written(host, old(mask[..]), Leading(d, prefix)) else old(mask[..])
  {
    hide FlowMask.Ones;
    ok := FlowMask.PrefixMask(mask, d.offset, d.size, prefix);
  }

  // Values

  function Converter(host: Host): Converts {
    (c, text) => Accepts(host, c, text)
  }

  /* A value that fills its field leaves nothing of what was there. */
  lemma FilledField(host: Host, d: Detail, text: string, was: seq<bv8>, bytes: seq<bv8>)
    requires Reading(host, d.conversion, text) == Some(Put(bytes)) && |bytes| == |was|
    ensures FieldBytes(host, Value(d, text), was) == bytes
  {
  }

  /**
   * The value of an item: unless a later clause is about the same bytes, a
   * clause with "is" or "spec" leaves in its field exactly the bytes its word
   * stands for, whatever came before.
   */
  lemma ValueOfItem(host: Host, details: seq<Detail>, size: nat, cs: seq<Clause>, c: Clause, later: seq<Clause>,
                    bytes: seq<bv8>)
    requires ClauseValid(Converter(host), details, c) && c.Match? && (c.how == "is" || c.how == "spec")
    requires var d := FindDetail(details, c.field).value;
             && Inside(d, size) && Avoid(details, later, d)
             && Reading(host, d.conversion, c.text) == Some(Put(bytes)) && |bytes| == d.size
    ensures var spec := After(details, cs + [c] + later, NO_OBJECTS).spec;
            spec.Some? && FieldAt(Memory(host, size, spec.value), FindDetail(details, c.field).value) == bytes
  {
    hide FindDetail, Memory, FieldAt, FieldBytes, After, Avoid, Reading;
    var d := FindDetail(details, c.field).value;
    FieldOfItem(host, details, size, cs, c, later, OnSpec, Value(d, c.text));
    FilledField(host, d, c.text, FieldAt(Memory(host, size, Writes(details, cs, OnSpec)), d), bytes);
  }

  const ETH := SPP_ITEMS[1]
  const VLAN := SPP_ITEMS[2]
  const ETH_SIZE := 14
  const VLAN_SIZE := 4

  /** "eth dst is 10:22:33:44:55:66": the address is in the value, byte for byte, and all of its bits are compared. */
  lemma AddressOfItem(host: Host, field: string, a: seq<nat>, cs: seq<Clause>, later: seq<Clause>, k: nat)
    requires IsAddress(a) && (field == "src" || field == "dst") && k < 48
    requires Avoid(ETH.details, later, FindDetail(ETH.details, field).value)
    ensures var item := ItemText("eth", cs + [Match(field, "is", AddressText(a))] + later);
            var o := ItemMeaning(SPP_ITEMS, item).objects;
            var d := FindDetail(ETH.details, field).value;
            && o.spec.Some? && o.mask.Some?
            && FieldAt(Memory(host, ETH_SIZE, o.spec.value), d) == AddressBytes(a)
            && BitOf(FieldAt(Memory(host, ETH_SIZE, o.mask.value), d), k)
  {
    var c := Match(field, "is", AddressText(a));
    var d := FindDetail(ETH.details, field).value;
    assert d.conversion == EtherAddr && d.size == 6 && Inside(d, ETH_SIZE);
    assert FindOps(SPP_ITEMS, "eth") == Some(ETH);
    AddressIsReadBack(host, a);
    hide FindDetail, FindOps, Memory, FieldAt, After, Avoid, Reading, AddressText, BitOf;
    ValueOfItem(host, ETH.details, ETH_SIZE, cs, c, later, AddressBytes(a));
    MaskOfItem(Converter(host), host, ETH.details, ETH_SIZE, cs, c, later, k);
  }

  /** "type is n": the low 16 bits of the number, in network order. */
  lemma TypeOfItem(host: Host, n: nat, cs: seq<Clause>, later: seq<Clause>)
    requires Avoid(ETH.details, later, FindDetail(ETH.details, "type").value)
    ensures var item := ItemText("eth", cs + [Match("type", "is", Decimal(n))] + later);
            var spec := ItemMeaning(SPP_ITEMS, item).objects.spec;
            spec.Some? && FieldAt(Memory(host, ETH_SIZE, spec.value), FindDetail(ETH.details, "type").value)
                          == [Byte(Ulong(n) / 256), Byte(Ulong(n))]
  {
    var c := Match("type", "is", Decimal(n));
    var d := FindDetail(ETH.details, "type").value;
    assert d.conversion == Be16 && d.size == 2 && Inside(d, ETH_SIZE);
    assert FindOps(SPP_ITEMS, "eth") == Some(ETH);
    ReadingOfDecimal(host, Be16, n);
    TwoBytes(Ulong(n));
    hide FindDetail, FindOps, Memory, FieldAt, After, Avoid, Reading, Decimal, Network, Ulong, Byte;
    ValueOfItem(host, ETH.details, ETH_SIZE, cs, c, later, [Byte(Ulong(n) / 256), Byte(Ulong(n))]);
  }

  // Values of actions

  lemma {:induction false} ArgumentsConcat(details: seq<Detail>, a: seq<Argument>, b: seq<Argument>)
    ensures ArgumentWrites(details, a + b) == ArgumentWrites(details, a) + ArgumentWrites(details, b)
  {
    hide FindDetail;
    if a == [] {
      assert a + b == b;
    } else {
      assert (a + b)[1..] == a[1..] + b;
      ArgumentsConcat(details, a[1..], b);
    }
  }

  predicate AvoidArguments(details: seq<Detail>, args: seq<Argument>, d: Detail) {
    forall i :: 0 <= i < |args| ==>
      var e := FindDetail(details, args[i].field); e.Some? ==> Disjoint(e.value, d)
  }

  lemma {:induction false} AvoidingArguments(details: seq<Detail>, args: seq<Argument>, d: Detail)
    requires AvoidArguments(details, args, d)
    ensures forall i :: 0 <= i < |ArgumentWrites(details, args)| ==>
              Disjoint(ArgumentWrites(details, args)[i].field, d)
  {
    hide FindDetail, Disjoint;
    if args != [] {
      AvoidingArguments(details, args[1..], d);
    }
  }

  /**
   * The object of an action: unless a later argument is about the same bytes, an
   * argument leaves in its field exactly the bytes its word stands for.
   */
  lemma ValueOfAction(host: Host, details: seq<Detail>, size: nat, args: seq<Argument>, field: string, text: string,
                      later: seq<Argument>, bytes: seq<bv8>)
    requires FindDetail(details, field).Some?
    requires var d := FindDetail(details, field).value;
             && Inside(d, size) && AvoidArguments(details, later, d)
             && Reading(host, d.conversion, text) == Some(Put(bytes)) && |bytes| == d.size
    ensures FieldAt(Memory(host, size, ArgumentWrites(details, args + [Arg(field, text)] + later)),
                    FindDetail(details, field).value) == bytes
  {
    var d := FindDetail(details, field).value;
    var w := Value(d, text);
    ArgumentsConcat(details, args + [Arg(field, text)], later);
    ArgumentsConcat(details, args, [Arg(field, text)]);
    assert [Arg(field, text)][1..] == [] && ArgumentWrites(details, [Arg(field, text)]) == [w];
    AvoidingArguments(details, later, d);
    hide ArgumentWrites, FieldAt, FieldBytes, Memory, Reading, FindDetail;
    LastWrite(host, size, ArgumentWrites(details, args), w, ArgumentWrites(details, later));
    FilledField(host, d, text, FieldAt(Memory(host, size, ArgumentWrites(details, args)), d), bytes);
  }

  /** What a number given to an action of one field leaves in its object. */
  function ActionMemory(host: Host, name: string, field: string, n: int, size: nat): Option<seq<bv8>> {
    var conf := ActionMeaning(SPP_ACTIONS, ActionText(name, [Arg(field, Decimal(n))])).conf;
    if conf.None? then None else Some(Memory(host, size, conf.value))
  }

  lemma OneNumber(host: Host, name: string, d: Detail, n: int, bytes: seq<bv8>)
    requires FindOps(SPP_ACTIONS, name) == Some(Ops(name, true, [d])) && d.offset == 0
    requires !d.conversion.EtherAddr? && NumberPatch(host, d.conversion, Ulong(n)) == Some(Put(bytes))
    requires |bytes| == d.size
    ensures ActionMemory(host, name, d.token, n, d.size) == Some(bytes)
  {
    var text := Decimal(n);
    hide Decimal, Reading, NumberPatch, Memory, FindOps, Ulong;
    ReadingOfDecimal(host, d.conversion, n);
    assert FindDetail([d], d.token) == Some(d);
    assert [] + [Arg(d.token, text)] + [] == [Arg(d.token, text)];
    ValueOfAction(host, [d], d.size, [], d.token, text, [], bytes);
    assert forall b: seq<bv8> :: |b| == d.size ==> FieldAt(b, d) == b;
  }

  /** "queue index n": the low 16 bits of the number, in the order of the host. */
  lemma IndexOfAction(host: Host, n: int)
    ensures var u := Ulong(n);
            ActionMemory(host, "queue", "index", n, 2)
            == Some(if host.little then [Byte(u), Byte(u / 256)] else [Byte(u / 256), Byte(u)])
  {
    FindActions();
    TwoBytes(Ulong(n));
    hide Byte, Network, Ulong, FindOps, ActionMemory;
    OneNumber(host, "queue", SPP_ACTIONS[2].details[0], n, HostOrder(host, Ulong(n), 2));
  }

  /** "jump group n": the low 32 bits of the number, in the order of the host. */
  lemma GroupOfAction(host: Host, n: int)
    ensures var u := Ulong(n);
            var b := [Byte(u / 256 / 256 / 256), Byte(u / 256 / 256), Byte(u / 256), Byte(u)];
            ActionMemory(host, "jump", "group", n, 4) == Some(if host.little then [b[3], b[2], b[1], b[0]] else b)
  {
    FindActions();
    FourBytes(Ulong(n));
    hide Byte, Network, Ulong, FindOps, ActionMemory;
    OneNumber(host, "jump", SPP_ACTIONS[1].details[0], n, HostOrder(host, Ulong(n), 4));
  }

  /** "of_push_vlan ethertype n" and "of_set_vlan_vid vlan_vid n": the low 16 bits, in network order. */
  lemma TypeAndVidOfAction(host: Host, n: int)
    ensures var b := [Byte(Ulong(n) / 256), Byte(Ulong(n))];
            && ActionMemory(host, "of_push_vlan", "ethertype", n, 2) == Some(b)
            && ActionMemory(host, "of_set_vlan_vid", "vlan_vid", n, 2) == Some(b)
  {
    FindActions();
    TwoBytes(Ulong(n));
    hide Byte, Network, Ulong, FindOps, ActionMemory;
    OneNumber(host, "of_push_vlan", SPP_ACTIONS[4].details[0], n, Network(Ulong(n), 2));
    OneNumber(host, "of_set_vlan_vid", SPP_ACTIONS[5].details[0], n, Network(Ulong(n), 2));
  }

  /** "of_set_vlan_pcp vlan_pcp n": the priority, if it is accepted, in one byte. */
  lemma PriorityOfAction(host: Host, n: int)
    requires Accepts(host, Pcp, Decimal(n))
    ensures ActionMemory(host, "of_set_vlan_pcp", "vlan_pcp", n, 1) == Some([Byte(Ulong(n))])
    ensures Ulong(n) % 256 < 8
  {
    FindActions();
    RangesAreOfLowBits(host, n);
    hide Byte, Ulong, FindOps, ActionMemory, Decimal;
    OneNumber(host, "of_set_vlan_pcp", SPP_ACTIONS[6].details[0], n, [Byte(Ulong(n))]);
  }

  lemma {:induction false} FindAt(table: seq<Ops>, k: nat)
    requires k < |table| && forall i :: 0 <= i < k ==> table[i].name != table[k].name
    ensures FindOps(table, table[k].name) == Some(table[k])
  {
    if k > 0 {
      FindAt(table[1..], k - 1);
    }
  }

  lemma FindActions()
    ensures FindOps(SPP_ACTIONS, "jump") == Some(SPP_ACTIONS[1])
    ensures FindOps(SPP_ACTIONS, "queue") == Some(SPP_ACTIONS[2])
    ensures FindOps(SPP_ACTIONS, "of_push_vlan") == Some(SPP_ACTIONS[4])
    ensures FindOps(SPP_ACTIONS, "of_set_vlan_vid") == Some(SPP_ACTIONS[5])
    ensures FindOps(SPP_ACTIONS, "of_set_vlan_pcp") == Some(SPP_ACTIONS[6])
  {
    hide FindOps;
    FindAt(SPP_ACTIONS, 1);
    FindAt(SPP_ACTIONS, 2);
    FindAt(SPP_ACTIONS, 4);
    var push, vid, pcp := SPP_ACTIONS[4].name, SPP_ACTIONS[5].name, SPP_ACTIONS[6].name;
    assert push[3] == 'p' && vid[12] == 'v' && pcp[12] == 'p';
    FindAt(SPP_ACTIONS, 5);
    FindAt(SPP_ACTIONS, 6);
  }

  // The tag of a VLAN

  const PCP := VLAN.details[1]
  const DEI := VLAN.details[2]
  const VID := VLAN.details[3]

  /** The clauses about the parts of a tag. */
  function TagClauses(pcp: string, dei: string, vid: string): seq<Clause> {
    [Match("pcp", "is", pcp)] + [Match("dei", "is", dei)] + [Match("vid", "is", vid)]
  }

  lemma TagWrites(pcp: string, dei: string, vid: string)
    ensures ItemMeaning(SPP_ITEMS, ItemText("vlan", TagClauses(pcp, dei, vid))).objects.spec
         == Some([Value(PCP, pcp)] + [Value(DEI, dei)] + [Value(VID, vid)])
  {
    var p, d, v := Match("pcp", "is", pcp), Match("dei", "is", dei), Match("vid", "is", vid);
    assert FindOps(SPP_ITEMS, "vlan") == Some(VLAN);
    FindTagParts();
    hide FindOps, FindDetail;
    assert [p][1..] == [] && [d][1..] == [] && [v][1..] == [];
    assert Writes(VLAN.details, [p], OnSpec) == [Value(PCP, pcp)];
    assert Writes(VLAN.details, [d], OnSpec) == [Value(DEI, dei)];
    assert Writes(VLAN.details, [v], OnSpec) == [Value(VID, vid)];
    hide Writes;
    WritesConcat(VLAN.details, [p], [d], OnSpec);
    WritesConcat(VLAN.details, [p] + [d], [v], OnSpec);
  }

  lemma FindTagParts()
    ensures FindDetail(VLAN.details, "pcp") == Some(PCP) && FindDetail(VLAN.details, "dei") == Some(DEI)
    ensures FindDetail(VLAN.details, "vid") == Some(VID)
  {
    assert VLAN.details[1..][0] == PCP && VLAN.details[1..][1..][0] == DEI && VLAN.details[1..][1..][1..][0] == VID;
  }

  /** The value of an item with those clauses, in memory. */
  function TagMemory(host: Host, pcp: nat, dei: nat, vid: nat): (b: seq<bv8>)
    ensures |b| == VLAN_SIZE
  {
    var cs := TagClauses(Decimal(pcp), Decimal(dei), Decimal(vid));
    var spec := ItemMeaning(SPP_ITEMS, ItemText("vlan", cs)).objects.spec;
    Memory(host, VLAN_SIZE, if spec.None? then [] else spec.value)
  }

  function Or(a: bv8, b: bv8): bv8 {
    a | b
  }

  lemma SetBits(host: Host, b: seq<bv8>, d: Detail, text: string, bytes: seq<bv8>)
    requires |b| == VLAN_SIZE && d.offset == 0 && d.size == 2 && 1 <= |bytes| <= 2
    requires Reading(host, d.conversion, text) == Some(Set(bytes))
    ensures var r := Written(host, b, Value(d, text));
            && r[0] == Or(b[0], bytes[0]) && r[1] == (if |bytes| == 2 then Or(b[1], bytes[1]) else b[1])
            && r[2] == b[2] && r[3] == b[3]
  {
    hide Reading;
  }

  lemma TagReadings(host: Host, pcp: nat, dei: nat, vid: nat)
    requires pcp < 8 && dei < 2 && vid < 4096
    ensures Reading(host, SetPcp, Decimal(pcp)) == Some(Set([Byte(pcp) << 1]))
    ensures Reading(host, SetDei, Decimal(dei)) == Some(Set([Byte(dei)]))
    ensures Reading(host, SetVid, Decimal(vid)) == Some(Set([Byte(vid / 256), Byte(vid)]))
  {
    hide Reading, Decimal, Network, Byte;
    ReadingOfDecimal(host, SetPcp, pcp);
    ReadingOfDecimal(host, SetDei, dei);
    ReadingOfDecimal(host, SetVid, vid);
    TwoBytes(vid);
  }

  lemma TagMemoryIs(host: Host, pcp: nat, dei: nat, vid: nat)
    ensures TagMemory(host, pcp, dei, vid)
         == Memory(host, VLAN_SIZE,
                   [Value(PCP, Decimal(pcp))] + [Value(DEI, Decimal(dei))] + [Value(VID, Decimal(vid))])
  {
    hide Memory, Decimal, ItemMeaning;
    TagWrites(Decimal(pcp), Decimal(dei), Decimal(vid));
  }

  /* Three writes that set bits in the first two bytes. */
  lemma ThreeSets(host: Host, p: Write, d: Write, v: Write, x: bv8, y: bv8, z: bv8, low: bv8)
    requires p.Value? && p.field == PCP && Reading(host, SetPcp, p.text) == Some(Set([x]))
    requires d.Value? && d.field == DEI && Reading(host, SetDei, d.text) == Some(Set([y]))
    requires v.Value? && v.field == VID && Reading(host, SetVid, v.text) == Some(Set([z, low]))
    ensures Memory(host, VLAN_SIZE, [p] + [d] + [v]) == [Or(Or(Or(0, x), y), z), Or(0, low), 0, 0]
  {
    hide Reading, Written, Or;
    assert Memory(host, VLAN_SIZE, []) == [0, 0, 0, 0];
    assert [] + [p] == [p];
    hide Memory;
    MemoryMore(host, VLAN_SIZE, [], p);
    SetBits(host, Memory(host, VLAN_SIZE, []), PCP, p.text, [x]);
    MemoryMore(host, VLAN_SIZE, [p], d);
    SetBits(host, Memory(host, VLAN_SIZE, [p]), DEI, d.text, [y]);
    MemoryMore(host, VLAN_SIZE, [p] + [d], v);
    SetBits(host, Memory(host, VLAN_SIZE, [p] + [d]), VID, v.text, [z, low]);
  }

  /* The priority and the drop bit go to the four bits where the VLAN ID begins. */
  lemma TagBytes(host: Host, pcp: nat, dei: nat, vid: nat)
    requires pcp < 8 && dei < 2 && vid < 4096
    ensures TagMemory(host, pcp, dei, vid)
         == [((0 | (Byte(pcp) << 1)) | Byte(dei)) | Byte(vid / 256), 0 | Byte(vid), 0, 0]
  {
    hide Reading, Decimal, Byte, TagMemory, Memory;
    TagMemoryIs(host, pcp, dei, vid);
    TagReadings(host, pcp, dei, vid);
    ThreeSets(host, Value(PCP, Decimal(pcp)), Value(DEI, Decimal(dei)), Value(VID, Decimal(vid)),
              Byte(pcp) << 1, Byte(dei), Byte(vid / 256), Byte(vid));
  }

  /** The value of the tag is three bits of priority, the drop bit and the VLAN ID exactly when
      priority and drop bit are zero. */
  lemma TagIsRightIffNoPriority(host: Host, pcp: nat, dei: nat, vid: nat)
    requires pcp < 8 && dei < 2 && vid < 4096
    ensures TagMemory(host, pcp, dei, vid)[..2] == TagControl(pcp, dei, vid) <==> pcp == 0 && dei == 0
  {
    TagBytes(host, pcp, dei, vid);
    Small(pcp);
    Small(dei);
    Small(vid / 256);
    hide Byte, TagMemory;
    Nibbles(Byte(pcp), Byte(dei), Byte(vid / 256));
    var m := TagMemory(host, pcp, dei, vid);
    assert m[..2] == [m[0], m[1]] && 0 | Byte(vid) == Byte(vid);
  }

  /* A priority of 1 in VLAN 0 and VLAN 512 without a priority give one and the same tag. */
  lemma TagsCoincide(host: Host)
    ensures TagMemory(host, 1, 0, 0) == TagMemory(host, 0, 0, 512)
  {
    TagBytes(host, 1, 0, 0);
    TagBytes(host, 0, 0, 512);
    hide TagMemory;
    assert Byte(1) == 1 && Byte(0) == 0 && Byte(2) == 2 && Byte(512) == 0;
  }
}
