/**
 * The flow command parser of the primary process: src/primary/flow/flow.c:256-429,
 * src/primary/flow/common.c:286-615 and src/primary/flow/attr.c:10-81.
 *
 * A command arrives as a list of words with a null pointer behind the last
 * one. The parsers advance an index through it; what they compute is given by
 * functions on the words still to be read. Where the code would look behind
 * the null pointer, or convert the null pointer, the result is `Undefined`.
 */
module FlowParser {
  import opened Text

  datatype Outcome<T> = Ok(value: T, rest: seq<string>) | Fail | Undefined

  // Numbers

  const UINT32 := 0x1_0000_0000
  const ULONG := 0x1_0000_0000_0000_0000

  predicate HexMark(s: string) {
    |s| > 2 && s[0] == '0' && (s[1] == 'x' || s[1] == 'X')
  }

  /** The digits `strtoul` reads in base 0, 10 or 16; base 0 leaves the base to their beginning. */
  function Magnitude(s: string, base: nat): Option<nat> {
    if s == "" then None
    else if base != 10 && HexMark(s) then (if DigitsIn(s[2..], 16) then Some(ValueIn(s[2..], 16)) else None)
    else
      var b := if base != 0 then base else if s[0] == '0' then 8 else 10;
      if DigitsIn(s, b) then Some(ValueIn(s, b)) else None
  }

  /** A number with its sign as an `unsigned long`. */
  function Ulong(n: int): (r: nat)
    ensures r < ULONG
  {
    if n <= -ULONG || ULONG <= n then ULONG - 1 else if n < 0 then ULONG + n else n
  }

  /** `strtoul`, `None` when it stops before the end of the word. */
  function Strtoul(s: string, base: nat): (r: Option<nat>)
    ensures r.Some? ==> r.value < ULONG
  {
    if s == "" then None
    else if IsSpace(s[0]) then Strtoul(s[1..], base)
    else
      match Magnitude(if s[0] == '-' || s[0] == '+' then s[1..] else s, base)
      case None => None
      case Some(v) => Some(Ulong(if s[0] == '-' then -(v as int) else v))
  }

  /** A printed number is read back, also where the base is left open. */
  lemma StrtoulOfDecimal(n: int, base: nat)
    requires base == 0 || base == 10
    ensures Strtoul(Decimal(n), base) == Some(Ulong(n))
  {
    var m := if n < 0 then -n else n;
    var s := Numeral(m, 10);
    MagnitudeOfNumeral(m, base);
    assert IsDigit(s[0]);
    hide Magnitude, Numeral;
    if n < 0 {
      assert Decimal(n)[1..] == s;
    }
  }

  lemma MagnitudeOfNumeral(m: nat, base: nat)
    requires base == 0 || base == 10
    ensures Magnitude(Numeral(m, 10), base) == Some(m)
  {
    var s := Numeral(m, 10);
    ValueOfNumeral(m, 10);
    NoLeadingZero(m, 10);
    assert IsDigit(s[0]) && (|s| > 1 ==> IsDigit(s[1]));
    assert !HexMark(s);
    if m == 0 {
      assert s == "0" && s[..0] == "";
      assert DigitOf(s[0]) == 0 && ValueIn(s, 8) == 0;
    }
  }

  /** So is a hexadecimal one. */
  lemma StrtoulOfHex(n: nat, base: nat)
    requires n < ULONG && (base == 0 || base == 16)
    ensures Strtoul("0x" + Numeral(n, 16), base) == Some(n)
  {
    var s := Numeral(n, 16);
    ValueOfNumeral(n, 16);
    assert ("0x" + s)[2..] == s && ("0x" + s)[0] == '0' && ("0x" + s)[1] == 'x';
  }

  /** White space in front of a number and a plus sign do not count. */
  lemma StrtoulSkips(c: char, s: string, n: nat, base: nat)
    requires IsSpace(c) && (base == 0 || base == 10)
    ensures Strtoul([c] + s, base) == Strtoul(s, base)
    ensures Strtoul("+" + Numeral(n, 10), base) == Some(Ulong(n))
  {
    assert ([c] + s)[1..] == s && ([c] + s)[0] == c;
    var t := Numeral(n, 10);
    MagnitudeOfNumeral(n, base);
    hide Magnitude, Numeral;
    assert ("+" + t)[1..] == t && ("+" + t)[0] == '+';
    if s == "" {
      assert Strtoul(s, base) == None;
    }
  }

  /** A number that starts with a zero is octal where the base is left open. */
  lemma StrtoulOfOctal(n: nat)
    requires n < ULONG
    ensures Strtoul("0" + Numeral(n, 8), 0) == Some(n)
  {
    var s := Numeral(n, 8);
    var t := "0" + s;
    ValueOfNumeral(n, 8);
    LeadingZero(s, 8);
    assert t[0] == '0' && t[1] == s[0] && DigitOf(s[0]) < 8;
    assert DigitsIn(t, 8);
    hide Numeral, ValueIn;
    assert !HexMark(t);
  }

  lemma {:induction false} LeadingZero(s: string, base: nat)
    ensures ValueIn("0" + s, base) == ValueIn(s, base)
  {
    var t := "0" + s;
    if s == "" {
      assert t[..|t|-1] == "" && t == "0";
    } else {
      assert t[..|t|-1] == "0" + s[..|s|-1];
      LeadingZero(s[..|s|-1], base);
    }
  }

  function ToUint32(n: nat): nat {
    n % UINT32
  }

  // The port

  /** A text up to a character, and what follows that character. */
  function Cut(s: string, c: char): (r: (string, string))
    ensures c !in r.0 && |r.0| + |r.1| <= |s|
  {
    if s == "" then ("", "")
    else if s[0] == c then ("", s[1..])
    else
      var (a, b) := Cut(s[1..], c);
      ([s[0]] + a, b)
  }

  lemma {:induction false} CutAtColon(a: string, b: string)
    requires ':' !in a
    ensures Cut(a + ":" + b, ':') == (a, b) && Cut(a, ':') == (a, "")
  {
    var s := a + ":" + b;
    if a == "" {
      assert s[1..] == b;
    } else {
      assert s[1..] == a[1..] + ":" + b;
      CutAtColon(a[1..], b);
      assert [a[0]] + a[1..] == a;
    }
  }

  /** `strtok` with a colon: the next piece that is not empty, and what follows it. */
  function Piece(s: string): (r: Option<(string, string)>)
    ensures r.Some? ==> r.value.0 != "" && |r.value.1| < |s|
  {
    if s == "" then None else if s[0] == ':' then Piece(s[1..]) else Some(Cut(s, ':'))
  }

  /** Where "nq" begins, or the length. */
  function FindQueue(s: string): (k: nat)
    ensures k <= |s| && (k < |s| ==> k + 2 <= |s|)
  {
    if s == "" || "nq" <= s then 0 else 1 + FindQueue(s[1..])
  }

  /** `strtol` in base 10 of a whole text, 0 of an empty one. */
  function Strtol(s: string): Option<int> {
    if s == "" then Some(0)
    else if IsSpace(s[0]) then (if s[1..] == "" then None else Strtol(s[1..]))
    else
      match ParseInt(s)
      case None => None
      case Some(n) => Some(if n >= LONG then LONG - 1 else if n < -LONG then -LONG else n)
  }

  const LONG := 0x8000_0000_0000_0000

  function ToInt32(n: int): int {
    var m := n % UINT32;
    if m < 0x8000_0000 then m else m - UINT32
  }

  /** `parse_phy_port_id`: the number of a physical port, with or without a queue. */
  function PortOf(uid: string): Outcome<int> {
    if ':' !in uid then Fail
    else
      match Piece(uid)
      case None => Undefined
      case Some((kind, rest)) =>
        match Piece(rest)
        case None => Undefined
        case Some((token, _)) =>
          var q := FindQueue(token);
          if Strtol(token[..q]).None? || (q < |token| && Strtol(token[q+2..]).None?) then Fail
          else if kind != "phy" then Fail
          else Ok(ToInt32(Strtol(token[..q]).value), [])
  }

  // Attributes

  datatype Attr = Attr(group: nat, priority: nat, ingress: bool, egress: bool, transfer: bool)

  const NO_ATTR := Attr(0, 0, false, false, false)

  /** Reads attributes up to the word "pattern". */
  function AttrOf(words: seq<string>, attr: Attr): (r: Outcome<Attr>)
    ensures r.Ok? ==> r.rest != []
  {
    if words == [] then Fail
    else if words[0] == "group" || words[0] == "priority" then
      if |words| == 1 then Fail
      else
        match Strtoul(words[1], 10)
        case None => Fail
        case Some(n) =>
          AttrOf(words[2..], if words[0] == "group" then attr.(group := ToUint32(n))
                             else attr.(priority := ToUint32(n)))
    else if words[0] == "ingress" then AttrOf(words[1..], attr.(ingress := true))
    else if words[0] == "egress" then AttrOf(words[1..], attr.(egress := true))
    else if words[0] == "transfer" then AttrOf(words[1..], attr.(transfer := true))
    else if words[0] == "pattern" then Ok(attr, words)
    else Fail
  }

  // Items

  /** The conversions of src/primary/flow/common.c that a field can name. */
  datatype Conversion =
    EtherAddr | Tci | Pcp | Be16 | Uint16 | Uint32 | SetPcp | SetDei | SetVid

  /** Whether a conversion accepts a word. */
  type Converts = (Conversion, string) -> bool

  /** A field: its word, where it lies in its object, and how its value is read. */
  datatype Detail = Detail(token: string, offset: nat, size: nat, hasValue: bool, conversion: Conversion)

  datatype Ops = Ops(name: string, parses: bool, details: seq<Detail>)

  /** One write into an object that was all zero when allocated. */
  datatype Write = Value(field: Detail, text: string) | Ones(field: Detail) | Leading(field: Detail, bits: nat)

  /** An object is known by the writes made to it; `None` is the null pointer. */
  type Object = Option<seq<Write>>

  datatype Objects = Objects(spec: Object, last: Object, mask: Object)

  const NO_OBJECTS := Objects(None, None, None)

  datatype Item = Item(name: string, objects: Objects)

  function Add(o: Object, w: Write): Object {
    match o
    case None => Some([w])
    case Some(ws) => Some(ws + [w])
  }

  function FindDetail(details: seq<Detail>, token: string): (r: Option<Detail>) {
    if details == [] then None
    else if details[0].token == token then Some(details[0])
    else FindDetail(details[1..], token)
  }

  function FindOps(table: seq<Ops>, name: string): (r: Option<Ops>)
    ensures r.Some? ==> r.value.name == name
  {
    if table == [] then None
    else if table[0].name == name then Some(table[0])
    else FindOps(table[1..], name)
  }

  predicate IsRelation(how: string) {
    how == "is" || how == "spec" || how == "last" || how == "mask" || how == "prefix"
  }

  /** Applies one value to a field; `None` when the value is refused. */
  function FieldValue(convert: Converts, d: Detail, how: string, text: string, o: Objects): Option<Objects>
    requires IsRelation(how)
  {
    if how == "prefix" then
      match Strtoul(text, 10)
      case None => None
      case Some(n) =>
        if ToUint32(n) > d.size * 8 then None
        else Some(o.(mask := Add(o.mask, Leading(d, ToUint32(n)))))
    else if !convert(d.conversion, text) then None
    else
      var w := Value(d, text);
      if how == "is" then Some(o.(spec := Add(o.spec, w), mask := Add(o.mask, Ones(d))))
      else if how == "spec" then Some(o.(spec := Add(o.spec, w)))
      else if how == "last" then Some(o.(last := Add(o.last, w)))
      else Some(o.(mask := Add(o.mask, w)))
  }

  /** Reads how a field is matched, and the value to match. */
  function FieldOf(convert: Converts, d: Detail, words: seq<string>, o: Objects): (r: Outcome<Objects>)
    ensures r.Ok? ==> |words| >= 2 && r.rest == words[2..]
  {
    if words == [] then Undefined
    else if !IsRelation(words[0]) then Fail
    else if |words| == 1 then Undefined
    else
      match FieldValue(convert, d, words[0], words[1], o)
      case None => Fail
      case Some(o') => Ok(o', words[2..])
  }

  /** Reads the fields of an item up to the slash. */
  function ItemOf(convert: Converts, details: seq<Detail>, words: seq<string>, o: Objects): (r: Outcome<Objects>)
    ensures r.Ok? ==> |r.rest| <= |words|
    decreases |words|
  {
    if words == [] || words[0] == "/" then Ok(o, words)
    else
      match FindDetail(details, words[0])
      case None => Fail
      case Some(d) =>
        if !d.hasValue then ItemOf(convert, details, words[1..], o)
        else
          match FieldOf(convert, d, words[1..], o)
          case Fail => Fail
          case Undefined => Undefined
          case Ok(o', rest) => ItemOf(convert, details, rest, o')
  }

  function Prepend<T>(first: seq<T>, r: Outcome<seq<T>>): Outcome<seq<T>> {
    match r
    case Fail => Fail
    case Undefined => Undefined
    case Ok(l, rest) => Ok(first + l, rest)
  }

  lemma PrependMore<T>(a: seq<T>, b: seq<T>, r: Outcome<seq<T>>)
    ensures Prepend(a, Prepend(b, r)) == Prepend(a + b, r)
    ensures Prepend([], r) == r
  {
    match r
    case Fail =>
    case Undefined =>
    case Ok(l, _) =>
      assert a + (b + l) == a + b + l;
      assert [] + l == l;
  }

  /** One item: its fields if its type has any, nothing otherwise. */
  function OneItem(convert: Converts, ops: Ops, words: seq<string>): (r: Outcome<Item>)
    requires words != []
    ensures r.Ok? ==> |r.rest| <= |words|
  {
    if !ops.parses then Ok(Item(ops.name, NO_OBJECTS), words)
    else
      match ItemOf(convert, ops.details, words[1..], NO_OBJECTS)
      case Fail => Fail
      case Undefined => Undefined
      case Ok(o, rest) => Ok(Item(ops.name, o), rest)
  }

  /** Reads items up to and including the item "end". */
  function PatternOf(convert: Converts, table: seq<Ops>, words: seq<string>): Outcome<seq<Item>>
    decreases |words|
  {
    if words == [] then Ok([], words)
    else
      match FindOps(table, words[0])
      case None => Fail
      case Some(ops) =>
        match OneItem(convert, ops, words)
        case Fail => Fail
        case Undefined => Undefined
        case Ok(item, rest) =>
          if words[0] == "end" then Ok([item], rest)
          else if rest == [] then Undefined
          else Prepend([item], PatternOf(convert, table, rest[1..]))
  }

  // Actions

  datatype Action = Action(name: string, conf: Object)

  /** Reads the arguments of an action up to the slash. */
  function ArgumentsOf(convert: Converts, details: seq<Detail>, words: seq<string>, conf: seq<Write>)
    : (r: Outcome<seq<Write>>)
    ensures r.Ok? ==> |r.rest| <= |words|
    decreases |words|
  {
    if words == [] || words[0] == "/" then Ok(conf, words)
    else
      match FindDetail(details, words[0])
      case None => Fail
      case Some(d) =>
        if !d.hasValue then ArgumentsOf(convert, details, words[1..], conf)
        else if |words| == 1 then Undefined
        else if !convert(d.conversion, words[1]) then Fail
        else ArgumentsOf(convert, details, words[2..], conf + [Value(d, words[1])])
  }

  function OneAction(convert: Converts, ops: Ops, words: seq<string>): (r: Outcome<Action>)
    requires words != []
    ensures r.Ok? ==> |r.rest| < |words|
  {
    if !ops.parses then Ok(Action(ops.name, None), words[1..])
    else
      match ArgumentsOf(convert, ops.details, words[1..], [])
      case Fail => Fail
      case Undefined => Undefined
      case Ok(conf, rest) => Ok(Action(ops.name, Some(conf)), rest)
  }

  /** Reads actions up to and including the action "end". */
  function ActionsOf(convert: Converts, table: seq<Ops>, words: seq<string>): Outcome<seq<Action>>
    decreases |words|
  {
    if words == [] then Ok([], words)
    else
      match FindOps(table, words[0])
      case None => Fail
      case Some(ops) =>
        match OneAction(convert, ops, words)
        case Fail => Fail
        case Undefined => Undefined
        case Ok(action, rest) =>
          if words[0] == "end" then Ok([action], rest)
          else if rest == [] then Undefined
          else Prepend([action], ActionsOf(convert, table, rest[1..]))
  }

  // The rule

  datatype Tables = Tables(items: seq<Ops>, actions: seq<Ops>)

  datatype Parsed = Parsed(attr: Attr, pattern: seq<Item>, actions: seq<Action>)

  /** Reads a command: the port is its third word, the rule follows. */
  function CommandOf(convert: Converts, tables: Tables, words: seq<string>): Outcome<(int, Parsed)> {
    if |words| < 3 then Fail
    else
      match PortOf(words[2])
      case Fail => Fail
      case Undefined => Undefined
      case Ok(port, _) =>
        match RuleOf(convert, tables, words[3..])
        case Fail => Fail
        case Undefined => Undefined
        case Ok(parsed, rest) => Ok((port, parsed), rest)
  }

  /** Reads a rule from the words behind the port. */
  function RuleOf(convert: Converts, tables: Tables, words: seq<string>): Outcome<Parsed> {
    match AttrOf(words, NO_ATTR)
    case Fail => Fail
    case Undefined => Undefined
    case Ok(attr, atPattern) =>
      match PatternOf(convert, tables.items, atPattern[1..])
      case Fail => Fail
      case Undefined => Undefined
      case Ok(pattern, atEnd) =>
        if |atEnd| < 2 then Undefined
        else if atEnd[1] != "actions" then Fail
        else
          match ActionsOf(convert, tables.actions, atEnd[2..])
          case Fail => Fail
          case Undefined => Undefined
          case Ok(actions, rest) => Ok(Parsed(attr, pattern, actions), rest)
  }

  // The parsers, on an index into the words

  datatype Status = Done | Failed | Astray

  ghost predicate Agrees<T>(r: Outcome<T>, status: Status, value: T, words: seq<string>, index: nat) {
    match r
    case Fail => status == Failed
    case Undefined => status == Astray
    case Ok(v, rest) => status == Done && value == v && index <= |words| && words[index..] == rest
  }

  method ParseFlowAttr(words: seq<string>, start: nat) returns (status: Status, index: nat, attr: Attr)
    requires start <= |words|
    ensures Agrees(AttrOf(words[start..], NO_ATTR), status, attr, words, index)
  {
    hide Strtoul;
    index, attr := start, NO_ATTR;
    while index < |words|
      invariant start <= index <= |words|
      invariant AttrOf(words[index..], attr) == AttrOf(words[start..], NO_ATTR)
    {
      var here := words[index..];
      assert here[1..] == words[index+1..];
      if words[index] == "group" || words[index] == "priority" {
        if index + 1 == |words| {
          return Failed, index, attr;
        }
        assert here[2..] == words[index+2..];
        var n := Strtoul(words[index+1], 10);
        if n.None? {
          return Failed, index, attr;
        }
        if words[index] == "group" {
          attr := attr.(group := ToUint32(n.value));
        } else {
          attr := attr.(priority := ToUint32(n.value));
        }
        index := index + 1;
      } else if words[index] == "ingress" {
        attr := attr.(ingress := true);
      } else if words[index] == "egress" {
        attr := attr.(egress := true);
      } else if words[index] == "transfer" {
        attr := attr.(transfer := true);
      } else if words[index] == "pattern" {
        return Done, index, attr;
      } else {
        return Failed, index, attr;
      }
      index := index + 1;
    }
    status := Failed;
  }

  method SearchDetail(details: seq<Detail>, token: string) returns (i: nat)
    ensures i <= |details|
    ensures FindDetail(details, token) == if i < |details| then Some(details[i]) else None
  {
    i := 0;
    while i < |details| && details[i].token != token
      invariant i <= |details|
      invariant FindDetail(details[i..], token) == FindDetail(details, token)
    {
      i := i + 1;
    }
  }

  method SearchOps(table: seq<Ops>, name: string) returns (i: nat)
    ensures i <= |table|
    ensures FindOps(table, name) == if i < |table| then Some(table[i]) else None
  {
    i := 0;
    while i < |table| && table[i].name != name
      invariant i <= |table|
      invariant FindOps(table[i..], name) == FindOps(table, name)
    {
      i := i + 1;
    }
  }

  /* Leaves the index on the value. */
  method ParseItemField(convert: Converts, d: Detail, words: seq<string>, start: nat, o: Objects)
    returns (status: Status, index: nat, objects: Objects)
    requires start <= |words|
    ensures Agrees(FieldOf(convert, d, words[start..], o), status, objects, words, index + 1)
  {
    index, objects := start, o;
    if index == |words| {
      return Astray, index, objects;
    }
    var how := words[index];
    index := index + 1;
    if IsRelation(how) {
      if index == |words| {
        return Astray, index, objects;
      }
      assert words[start..][2..] == words[index+1..];
      if how == "prefix" {
        var n := Strtoul(words[index], 10);
        if n.None? || ToUint32(n.value) > d.size * 8 {
          return Failed, index, objects;
        }
        objects := o.(mask := Add(o.mask, Leading(d, ToUint32(n.value))));
      } else if !convert(d.conversion, words[index]) {
        return Failed, index, objects;
      } else if how == "is" {
        objects := o.(spec := Add(o.spec, Value(d, words[index])));
        objects := objects.(mask := Add(o.mask, Ones(d)));
      } else if how == "spec" {
        objects := o.(spec := Add(o.spec, Value(d, words[index])));
      } else if how == "last" {
        objects := o.(last := Add(o.last, Value(d, words[index])));
      } else {
        objects := o.(mask := Add(o.mask, Value(d, words[index])));
      }
      status := Done;
    } else {
      status := Failed;
    }
  }

  method ParseItemCommon(convert: Converts, details: seq<Detail>, words: seq<string>, start: nat)
    returns (status: Status, index: nat, objects: Objects)
    requires start < |words|
    ensures Agrees(ItemOf(convert, details, words[start+1..], NO_OBJECTS), status, objects, words, index)
  {
    hide FieldOf, FindDetail;
    index, objects, status := start + 1, NO_OBJECTS, Done;
    while index < |words| && words[index] != "/"
      invariant start < index <= |words| && status == Done
      invariant ItemOf(convert, details, words[index..], objects)
             == ItemOf(convert, details, words[start+1..], NO_OBJECTS)
    {
      var here := words[index..];
      assert here[1..] == words[index+1..];
      var i := SearchDetail(details, words[index]);
      if i == |details| {
        return Failed, index, objects;
      }
      if details[i].hasValue {
        status, index, objects := ParseItemField(convert, details[i], words, index + 1, objects);
        if status != Done {
          return;
        }
      }
      index := index + 1;
    }
  }

  method ParseOneItem(convert: Converts, ops: Ops, words: seq<string>, start: nat)
    returns (status: Status, index: nat, item: Item)
    requires start < |words|
    ensures Agrees(OneItem(convert, ops, words[start..]), status, item, words, index)
  {
    hide ItemOf;
    assert words[start..][1..] == words[start+1..];
    status, index, item := Done, start, Item(ops.name, NO_OBJECTS);
    if ops.parses {
      var objects;
      status, index, objects := ParseItemCommon(convert, ops.details, words, start);
      item := Item(ops.name, objects);
    }
  }

  method ParseFlowPattern(convert: Converts, table: seq<Ops>, words: seq<string>, start: nat)
    returns (status: Status, index: nat, pattern: seq<Item>)
    requires start <= |words|
    ensures Agrees(PatternOf(convert, table, words[start..]), status, pattern, words, index)
  {
    hide OneItem, FindOps;
    index, pattern, status := start, [], Done;
    ghost var all := PatternOf(convert, table, words[start..]);
    PrependMore([], [], all);
    while index < |words|
      invariant start <= index <= |words| && status == Done
      invariant all == Prepend(pattern, PatternOf(convert, table, words[index..]))
    {
      var token := words[index];
      var i := SearchOps(table, token);
      if i == |table| {
        return Failed, index, pattern;
      }
      var item;
      status, index, item := ParseOneItem(convert, table[i], words, index);
      if status != Done {
        return;
      }
      if token == "end" {
        pattern := pattern + [item];
        return;
      }
      if index == |words| {
        return Astray, index, pattern;
      }
      index := index + 1;
      PrependMore(pattern, [item], PatternOf(convert, table, words[index..]));
      pattern := pattern + [item];
    }
    assert pattern + [] == pattern;
  }

  method ParseActionCommon(convert: Converts, details: seq<Detail>, words: seq<string>, start: nat)
    returns (status: Status, index: nat, conf: seq<Write>)
    requires start < |words|
    ensures Agrees(ArgumentsOf(convert, details, words[start+1..], []), status, conf, words, index)
  {
    hide FindDetail;
    ghost var all := ArgumentsOf(convert, details, words[start+1..], []);
    index, conf, status := start + 1, [], Done;
    while index < |words| && words[index] != "/"
      invariant start < index <= |words| && status == Done
      invariant ArgumentsOf(convert, details, words[index..], conf) == all
    {
      var here := words[index..];
      assert here[1..] == words[index+1..];
      var i := SearchDetail(details, words[index]);
      if i == |details| {
        return Failed, index, conf;
      }
      if details[i].hasValue {
        index := index + 1;
        if index == |words| {
          return Astray, index, conf;
        }
        assert here[2..] == words[index+1..];
        if !convert(details[i].conversion, words[index]) {
          return Failed, index, conf;
        }
        conf := conf + [Value(details[i], words[index])];
      }
      index := index + 1;
    }
  }

  method ParseOneAction(convert: Converts, ops: Ops, words: seq<string>, start: nat)
    returns (status: Status, index: nat, action: Action)
    requires start < |words|
    ensures Agrees(OneAction(convert, ops, words[start..]), status, action, words, index)
  {
    hide ArgumentsOf;
    assert words[start..][1..] == words[start+1..];
    status, index, action := Done, start + 1, Action(ops.name, None);
    if ops.parses {
      var conf;
      status, index, conf := ParseActionCommon(convert, ops.details, words, start);
      action := Action(ops.name, Some(conf));
    }
  }

  /* From the word behind "actions". */
  method ParseFlowActions(convert: Converts, table: seq<Ops>, words: seq<string>, start: nat)
    returns (status: Status, index: nat, actions: seq<Action>)
    requires start <= |words|
    ensures Agrees(ActionsOf(convert, table, words[start..]), status, actions, words, index)
  {
    hide OneAction, FindOps;
    index, actions, status := start, [], Done;
    ghost var all := ActionsOf(convert, table, words[start..]);
    PrependMore([], [], all);
    while index < |words|
      invariant start <= index <= |words| && status == Done
      invariant all == Prepend(actions, ActionsOf(convert, table, words[index..]))
    {
      var token := words[index];
      var i := SearchOps(table, token);
      if i == |table| {
        return Failed, index, actions;
      }
      var action;
      status, index, action := ParseOneAction(convert, table[i], words, index);
      if status != Done {
        return;
      }
      if token == "end" {
        actions := actions + [action];
        return;
      }
      if index == |words| {
        return Astray, index, actions;
      }
      index := index + 1;
      PrependMore(actions, [action], ActionsOf(convert, table, words[index..]));
      actions := actions + [action];
    }
    assert actions + [] == actions;
  }

  /* Attributes, pattern and actions, from the word behind the port. */
  method ParseRest(convert: Converts, tables: Tables, words: seq<string>, start: nat)
    returns (status: Status, index: nat, parsed: Parsed)
    requires start <= |words|
    ensures Agrees(RuleOf(convert, tables, words[start..]), status, parsed, words, index)
  {
    hide AttrOf, PatternOf, ActionsOf;
    parsed := Parsed(NO_ATTR, [], []);
    var attr;
    status, index, attr := ParseFlowAttr(words, start);
    if status != Done {
      return;
    }
    assert words[index..][1..] == words[index+1..];
    var pattern;
    status, index, pattern := ParseFlowPattern(convert, tables.items, words, index + 1);
    if status != Done {
      return;
    }
    if index + 1 >= |words| {
      return Astray, index, parsed;
    }
    if words[index + 1] != "actions" {
      return Failed, index, parsed;
    }
    assert words[index..][2..] == words[index+2..];
    var actions;
    status, index, actions := ParseFlowActions(convert, tables.actions, words, index + 2);
    parsed := Parsed(attr, pattern, actions);
  }

  method ParseFlowRule(convert: Converts, tables: Tables, words: seq<string>)
    returns (status: Status, index: nat, command: (int, Parsed))
    ensures Agrees(CommandOf(convert, tables, words), status, command, words, index)
  {
    hide RuleOf, PortOf;
    index, command := 3, (0, Parsed(NO_ATTR, [], []));
    if |words| < 3 {
      return Failed, index, command;
    }
    var port := PortOf(words[2]);
    if !port.Ok? {
      return if port == Fail then Failed else Astray, index, command;
    }
    var parsed;
    status, index, parsed := ParseRest(convert, tables, words, index);
    command := (port.value, parsed);
  }
}
