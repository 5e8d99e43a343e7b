/**
 * Flow rules as commands: the printer in spp-ctl (`_create_flow_rule_command`,
 * src/spp-ctl/spp_webapi.py:655-693) and the parser of the command line tool
 * (`_parse_flow_rule`, src/cli/commands/pri_flow.py:602-721).
 *
 * The parser's loops are methods on an index; what they compute is given by
 * functions on the parameters still to be read.
 */
module FlowCommand {
  import opened Text

  /** A rule as a dictionary: an absent key is `None`. */
  datatype Rule = Rule(
    group: Option<int>, priority: Option<int>, transfer: Option<bool>,
    direction: Option<string>, pattern: seq<string>, actions: seq<string>)

  const NO_RULE := Rule(None, None, None, None, [], [])

  // The printer

  /** What the request check of spp-ctl lets through to the printer. */
  predicate Accepted(rule: Rule) {
    rule.direction == Some("ingress") || rule.direction == Some("egress")
  }

  predicate SubCommand(name: string) {
    name == "validate" || name == "create"
  }

  function Number(key: string, n: Option<int>): string {
    match n
    case None => ""
    case Some(v) => key + " " + Decimal(v) + " "
  }

  /** `" / ".join(items)`. */
  function Joined(items: seq<string>): string {
    if items == [] then ""
    else if |items| == 1 then items[0]
    else items[0] + " / " + Joined(items[1..])
  }

  function Attributes(rule: Rule): string
    requires Accepted(rule)
  {
    Number("group", rule.group) + Number("priority", rule.priority)
    + (if rule.transfer == Some(true) then "transfer " else "")
    + rule.direction.value
  }

  function RuleText(rule: Rule): string
    requires Accepted(rule)
  {
    Attributes(rule) + " " + "pattern " + Joined(rule.pattern) + " / end "
    + "actions " + Joined(rule.actions) + " / end"
  }

  function Print(name: string, port: int, rule: Rule): string
    requires Accepted(rule)
  {
    "flow " + name + " phy:" + Decimal(port) + " " + RuleText(rule)
  }

  // The fields of a printed command

  function NumberFields(key: string, n: Option<int>): seq<string> {
    match n
    case None => []
    case Some(v) => [key, Decimal(v)]
  }

  function AttributeFields(rule: Rule): seq<string>
    requires Accepted(rule)
  {
    NumberFields("group", rule.group) + NumberFields("priority", rule.priority)
    + (if rule.transfer == Some(true) then ["transfer"] else [])
    + [rule.direction.value]
  }

  /** The fields of every item, each item closed by a slash. */
  function ItemFields(items: seq<string>): seq<string> {
    if items == [] then [] else Split(items[0]) + ["/"] + ItemFields(items[1..])
  }

  /** Joining no items prints the same as joining one empty item. */
  function Listed(items: seq<string>): (r: seq<string>)
    ensures r != [] && (r == items <==> items != [])
  {
    if items == [] then [""] else items
  }

  function ListFields(items: seq<string>): seq<string> {
    ItemFields(Listed(items)) + ["end"]
  }

  function RuleFields(rule: Rule): seq<string>
    requires Accepted(rule)
  {
    AttributeFields(rule) + ["pattern"] + ListFields(rule.pattern) + ["actions"] + ListFields(rule.actions)
  }

  lemma SplitSlash(item: string, rest: string)
    ensures Split(item + " / " + rest) == Split(item) + ["/"] + Split(rest)
  {
    hide Split;
    assert item + " / " + rest == item + " " + ("/" + " " + rest);
    SplitAtBlank(item, "/" + " " + rest);
    SplitWordFirst("/", rest);
  }

  /** A printed list, up to its end and whatever follows it. */
  lemma {:induction false} SplitJoined(items: seq<string>, rest: string)
    requires items != []
    ensures Split(Joined(items) + " / " + rest) == ItemFields(items) + Split(rest)
  {
    hide Split;
    if |items| == 1 {
      SplitSlash(items[0], rest);
      assert items[1..] == [];
      assert ItemFields(items) == Split(items[0]) + ["/"];
    } else {
      var more := Joined(items[1..]) + " / " + rest;
      SplitJoined(items[1..], rest);
      assert Joined(items) + " / " + rest == items[0] + " / " + more;
      SplitSlash(items[0], more);
      assert Split(items[0]) + ["/"] + (ItemFields(items[1..]) + Split(rest)) == ItemFields(items) + Split(rest);
    }
  }

  lemma JoinedListed(items: seq<string>)
    ensures Joined(Listed(items)) == Joined(items)
  {
  }

  /** A list with its keyword and its end. */
  lemma SplitList(key: string, items: seq<string>, rest: string)
    requires ' ' !in key
    ensures Split(key + " " + Joined(items) + " / end " + rest) == [key] + ListFields(items) + Split(rest)
  {
    hide Split, Joined, ItemFields;
    var tail := "end" + " " + rest;
    assert key + " " + Joined(items) + " / end " + rest == key + " " + (Joined(items) + " / " + tail);
    JoinedListed(items);
    SplitWordFirst(key, Joined(items) + " / " + tail);
    SplitJoined(Listed(items), tail);
    SplitWordFirst("end", rest);
  }

  lemma SplitLastList(key: string, items: seq<string>)
    requires ' ' !in key
    ensures Split(key + " " + Joined(items) + " / end") == [key] + ListFields(items)
  {
    hide Split, Joined, ItemFields;
    assert key + " " + Joined(items) + " / end" == key + " " + (Joined(items) + " / " + "end");
    JoinedListed(items);
    SplitWordFirst(key, Joined(items) + " / " + "end");
    SplitJoined(Listed(items), "end");
    SplitWord("end");
  }

  lemma SplitNumber(key: string, n: Option<int>, rest: string)
    requires ' ' !in key
    ensures Split(Number(key, n) + rest) == NumberFields(key, n) + Split(rest)
  {
    hide Split, Decimal;
    match n {
      case None =>
        assert "" + rest == rest;
      case Some(v) =>
        assert Number(key, n) + rest == key + " " + (Decimal(v) + " " + rest);
        SplitWordFirst(key, Decimal(v) + " " + rest);
        SplitWordFirst(Decimal(v), rest);
    }
  }

  lemma SplitAttributes(rule: Rule, rest: string)
    requires Accepted(rule)
    ensures Split(Attributes(rule) + " " + rest) == AttributeFields(rule) + Split(rest)
  {
    hide Split, Number, NumberFields;
    var d := rule.direction.value + " " + rest;
    var t := (if rule.transfer == Some(true) then "transfer " else "") + d;
    var p := Number("priority", rule.priority) + t;
    assert Attributes(rule) + " " + rest == Number("group", rule.group) + p;
    SplitNumber("group", rule.group, p);
    SplitNumber("priority", rule.priority, t);
    if rule.transfer == Some(true) {
      assert t == "transfer" + " " + d;
      SplitWordFirst("transfer", d);
    } else {
      assert t == d;
    }
    SplitWordFirst(rule.direction.value, rest);
  }

  lemma SplitRule(rule: Rule)
    requires Accepted(rule)
    ensures Split(RuleText(rule)) == RuleFields(rule)
  {
    hide Split, Attributes, Joined, AttributeFields, ListFields;
    var actions := "actions" + " " + Joined(rule.actions) + " / end";
    var lists := "pattern" + " " + Joined(rule.pattern) + " / end " + actions;
    assert RuleText(rule) == Attributes(rule) + " " + lists;
    SplitAttributes(rule, lists);
    SplitList("pattern", rule.pattern, actions);
    SplitLastList("actions", rule.actions);
  }

  /** The fields of a printed command: three words in front of the rule. */
  lemma SplitPrint(name: string, port: int, rule: Rule)
    requires Accepted(rule) && SubCommand(name)
    ensures Split(Print(name, port, rule)) == ["flow", name, "phy:" + Decimal(port)] + RuleFields(rule)
  {
    hide Split, Decimal, RuleText, RuleFields;
    var uid := "phy:" + Decimal(port);
    var text := RuleText(rule);
    assert Print(name, port, rule) == "flow" + " " + (name + " " + (uid + " " + text));
    SplitWordFirst("flow", name + " " + (uid + " " + text));
    SplitWordFirst(name, uid + " " + text);
    SplitWordFirst(uid, text);
    SplitRule(rule);
  }

  // The parser, on the parameters still to be read

  /**
   * Reads attributes up to the word "pattern", or to the end when it is
   * missing; `None` when a number is missing or is not one.
   */
  function AttributesOf(params: seq<string>, rule: Rule): Option<(Rule, seq<string>)> {
    if params == [] then Some((rule, params))
    else if params[0] == "group" || params[0] == "priority" then
      if |params| == 1 then None
      else
        match ParseInt(params[1])
        case None => None
        case Some(n) =>
          AttributesOf(params[2..], if params[0] == "group" then rule.(group := Some(n))
                                    else rule.(priority := Some(n)))
    else if params[0] == "ingress" || params[0] == "egress" then
      AttributesOf(params[1..], rule.(direction := Some(params[0])))
    else if params[0] == "transfer" then AttributesOf(params[1..], rule.(transfer := Some(true)))
    else if params[0] == "pattern" then Some((rule, params))
    else AttributesOf(params[1..], rule)
  }

  /** Reads items up to the word "end"; `sentence` is the item being gathered. */
  function ItemsOf(params: seq<string>, sentence: string): (seq<string>, seq<string>) {
    if params == [] then ([], [])
    else if params[0] == "/" then
      var (items, rest) := ItemsOf(params[1..], "");
      ([Rstrip(sentence)] + items, rest)
    else if params[0] == "end" then ([], params[1..])
    else ItemsOf(params[1..], sentence + params[0] + " ")
  }

  /** A keyword, then its items. */
  function ListOf(key: string, params: seq<string>): Option<(seq<string>, seq<string>)> {
    if |params| <= 1 || params[0] != key then None else Some(ItemsOf(params[1..], ""))
  }

  function ParseRule(params: seq<string>): Option<Rule> {
    match AttributesOf(params, NO_RULE)
    case None => None
    case Some((attrs, atPattern)) =>
      match ListOf("pattern", atPattern)
      case None => None
      case Some((pattern, atActions)) =>
        match ListOf("actions", atActions)
        case None => None
        case Some((actions, rest)) => Some(attrs.(pattern := pattern, actions := actions))
  }

  method ParseAttributes(params: seq<string>, start: nat, initial: Rule) returns (index: Option<nat>, rule: Rule)
    requires start <= |params|
    ensures match AttributesOf(params[start..], initial)
            case None => index == None
            case Some((r, rest)) => index.Some? && index.value <= |params| && rule == r && params[index.value..] == rest
  {
    var i := start;
    rule := initial;
    while i < |params|
      invariant start <= i <= |params|
      invariant AttributesOf(params[i..], rule) == AttributesOf(params[start..], initial)
    {
      var here := params[i..];
      assert here[1..] == params[i+1..];
      if params[i] == "group" || params[i] == "priority" {
        if i + 1 == |params| {
          return None, rule;
        }
        assert here[2..] == params[i+2..];
        var n := ParseInt(params[i+1]);
        if n.None? {
          return None, rule;
        }
        rule := if params[i] == "group" then rule.(group := Some(n.value)) else rule.(priority := Some(n.value));
        i := i + 1;
      } else if params[i] == "ingress" || params[i] == "egress" {
        rule := rule.(direction := Some(params[i]));
      } else if params[i] == "transfer" {
        rule := rule.(transfer := Some(true));
      } else if params[i] == "pattern" {
        break;
      }
      i := i + 1;
    }
    index := Some(i);
  }

  /* `_parse_flow_rule_patterns` and `_parse_flow_rule_actions` differ in their keyword only. */
  method ParseItems(key: string, params: seq<string>, start: nat) returns (index: Option<nat>, items: seq<string>)
    requires start + 1 < |params|
    ensures match ListOf(key, params[start..])
            case None => index == None
            case Some((l, rest)) =>
              index.Some? && index.value <= |params| && items == l && params[index.value..] == rest
  {
    items := [];
    if params[start] != key {
      return None, items;
    }
    var sentence := "";
    var i := start + 1;
    assert params[start..][1..] == params[i..];
    ghost var all := ItemsOf(params[i..], "");
    while i < |params|
      invariant start < i <= |params|
      invariant all.0 == items + ItemsOf(params[i..], sentence).0 && all.1 == ItemsOf(params[i..], sentence).1
    {
      assert params[i..][1..] == params[i+1..];
      if params[i] == "/" {
        items, sentence := items + [Rstrip(sentence)], "";
      } else if params[i] == "end" {
        i := i + 1;
        return Some(i), items;
      } else {
        sentence := sentence + params[i] + " ";
      }
      i := i + 1;
    }
    index := Some(i);
  }

  method ParseFlowRule(params: seq<string>) returns (rule: Option<Rule>)
    ensures rule == ParseRule(params)
  {
    assert params[0..] == params;
    var index, attrs := ParseAttributes(params, 0, NO_RULE);
    if index.None? || index.value + 1 >= |params| {
      return None;
    }
    var atActions, pattern := ParseItems("pattern", params, index.value);
    if atActions.None? || atActions.value + 1 >= |params| {
      return None;
    }
    var end, actions := ParseItems("actions", params, atActions.value);
    if end.None? {
      return None;
    }
    rule := Some(attrs.(pattern := pattern, actions := actions));
  }

  // Reading back what was printed

  predicate CleanFields(fields: seq<string>) {
    "/" !in fields && "end" !in fields
  }

  /** No field of an item is a slash or the word "end". */
  predicate Clean(items: seq<string>) {
    forall i :: 0 <= i < |items| ==> CleanFields(Split(items[i]))
  }

  function Stripped(items: seq<string>): (r: seq<string>)
    ensures |r| == |items| && forall i :: 0 <= i < |r| ==> r[i] == Rstrip(items[i])
  {
    if items == [] then [] else [Rstrip(items[0])] + Stripped(items[1..])
  }

  lemma {:induction false} GatherFields(fields: seq<string>, rest: seq<string>, sentence: string)
    requires CleanFields(fields)
    ensures ItemsOf(fields + rest, sentence) == ItemsOf(rest, sentence + Sentence(fields))
  {
    if fields == [] {
      assert fields + rest == rest;
      assert sentence + "" == sentence;
    } else {
      var next := sentence + fields[0] + " ";
      assert (fields + rest)[1..] == fields[1..] + rest;
      GatherFields(fields[1..], rest, next);
      assert next + Sentence(fields[1..]) == sentence + Sentence(fields);
    }
  }

  lemma GatherItem(item: string, rest: seq<string>)
    requires CleanFields(Split(item))
    ensures ItemsOf(Split(item) + ["/"] + rest, "") == ([Rstrip(item)] + ItemsOf(rest, "").0, ItemsOf(rest, "").1)
  {
    hide Split, Rstrip, Sentence;
    assert Split(item) + ["/"] + rest == Split(item) + (["/"] + rest);
    GatherFields(Split(item), ["/"] + rest, "");
    SentenceOfSplit(item);
    assert "" + (item + " ") == item + " ";
    RstripBlank(item);
    assert (["/"] + rest)[1..] == rest;
  }

  lemma {:induction false} GatherList(items: seq<string>, rest: seq<string>)
    requires Clean(items)
    ensures ItemsOf(ItemFields(items) + ["end"] + rest, "") == (Stripped(items), rest)
  {
    var all := ItemFields(items) + ["end"] + rest;
    if items == [] {
      assert all == ["end"] + rest;
      assert all[1..] == rest;
    } else {
      var more := ItemFields(items[1..]) + ["end"] + rest;
      assert all == Split(items[0]) + ["/"] + more;
      GatherItem(items[0], more);
      GatherList(items[1..], rest);
    }
  }

  /* The fields up to the first slash or "end" are gathered, and nothing more. */
  lemma {:induction false} SentenceIsShorter(a: seq<string>, b: seq<string>)
    requires b != [] && b[0] != ""
    ensures |Sentence(a)| + 2 <= |Sentence(a + b)|
  {
    if a == [] {
      assert a + b == b;
    } else {
      assert (a + b)[1..] == a[1..] + b;
      SentenceIsShorter(a[1..], b);
    }
  }

  lemma {:induction false} FirstDirty(fields: seq<string>) returns (k: nat)
    requires !CleanFields(fields)
    ensures k < |fields| && CleanFields(fields[..k]) && (fields[k] == "/" || fields[k] == "end")
  {
    if fields[0] == "/" || fields[0] == "end" {
      k := 0;
    } else {
      var j := FirstDirty(fields[1..]);
      k := j + 1;
      assert fields[..k] == [fields[0]] + fields[1..][..j];
    }
  }

  /** An item that is not clean is not read back. */
  lemma DirtyItem(item: string, rest: seq<string>)
    requires !CleanFields(Split(item))
    ensures var read := ItemsOf(Split(item) + rest, "").0; read == [] || read[0] != item
  {
    hide Split, Sentence;
    var fields := Split(item);
    var k := FirstDirty(fields);
    var pre, post := fields[..k], fields[k..];
    assert fields + rest == pre + (post + rest);
    GatherFields(pre, post + rest, "");
    assert "" + Sentence(pre) == Sentence(pre);
    assert (post + rest)[0] == fields[k];
    SentenceIsShorter(pre, post);
    assert pre + post == fields;
    SentenceOfSplit(item);
  }

  lemma {:induction false} DirtyList(items: seq<string>, rest: seq<string>)
    requires !Clean(items)
    ensures ItemsOf(ItemFields(items) + rest, "").0 != items
  {
    hide Split, Rstrip;
    var more := ItemFields(items[1..]) + rest;
    assert ItemFields(items) + rest == Split(items[0]) + (["/"] + more);
    if CleanFields(Split(items[0])) {
      assert Split(items[0]) + (["/"] + more) == Split(items[0]) + ["/"] + more;
      GatherItem(items[0], more);
      DirtyList(items[1..], rest);
    } else {
      DirtyItem(items[0], ["/"] + more);
    }
  }

  /** What a list must be to come back as it was. */
  predicate Returns(items: seq<string>) {
    items != [] && Clean(items) && forall i :: 0 <= i < |items| ==> Rstrip(items[i]) == items[i]
  }

  lemma CleanEmpty()
    ensures Clean([""])
  {
    assert Split("") == [""];
  }

  lemma ListRoundTrip(items: seq<string>, rest: seq<string>)
    ensures Clean(items) ==> ItemsOf(ListFields(items) + rest, "") == (Stripped(Listed(items)), rest)
    ensures ItemsOf(ListFields(items) + rest, "").0 == items <==> Returns(items)
  {
    hide Split, Rstrip, ItemFields, ItemsOf;
    var all := Listed(items);
    CleanEmpty();
    if Clean(items) {
      GatherList(all, rest);
      assert Stripped(all) == items <==> Returns(items);
    } else {
      assert ListFields(items) + rest == ItemFields(items) + (["end"] + rest);
      DirtyList(items, ["end"] + rest);
    }
  }

  // The round trip

  lemma ReadNumber(key: string, n: Option<int>, rest: seq<string>, rule: Rule)
    requires key == "group" || key == "priority"
    ensures AttributesOf(NumberFields(key, n) + rest, rule)
         == AttributesOf(rest, if n.None? then rule
                               else if key == "group" then rule.(group := n) else rule.(priority := n))
  {
    hide ParseInt, Decimal;
    var params := NumberFields(key, n) + rest;
    match n {
      case None =>
        assert params == rest;
      case Some(v) =>
        ParseOfDecimal(v);
        assert params[2..] == rest;
    }
  }

  /** The attributes of a rule as they are read back: `transfer` is never read back as false. */
  function ReadAttributes(rule: Rule): Rule {
    rule.(transfer := if rule.transfer == Some(true) then Some(true) else None, pattern := [], actions := [])
  }

  lemma ReadFlags(rule: Rule, before: Rule, rest: seq<string>)
    requires Accepted(rule)
    ensures AttributesOf((if rule.transfer == Some(true) then ["transfer"] else [])
                         + [rule.direction.value] + ["pattern"] + rest, before)
         == Some((before.(transfer := if rule.transfer == Some(true) then Some(true) else before.transfer,
                          direction := rule.direction), ["pattern"] + rest))
  {
    var d := [rule.direction.value] + ["pattern"] + rest;
    if rule.transfer == Some(true) {
      var t := ["transfer"] + [rule.direction.value] + ["pattern"] + rest;
      assert t[1..] == d;
      ReadDirection(rule.direction.value, before.(transfer := Some(true)), rest);
    } else {
      assert [] + [rule.direction.value] + ["pattern"] + rest == d;
      ReadDirection(rule.direction.value, before, rest);
    }
  }

  lemma ReadDirection(direction: string, before: Rule, rest: seq<string>)
    requires direction == "ingress" || direction == "egress"
    ensures AttributesOf([direction] + ["pattern"] + rest, before)
         == Some((before.(direction := Some(direction)), ["pattern"] + rest))
  {
    assert ([direction] + ["pattern"] + rest)[1..] == ["pattern"] + rest;
  }

  lemma AttributesRoundTrip(rule: Rule, rest: seq<string>)
    requires Accepted(rule)
    ensures AttributesOf(AttributeFields(rule) + ["pattern"] + rest, NO_RULE)
         == Some((ReadAttributes(rule), ["pattern"] + rest))
  {
    hide AttributesOf, NumberFields;
    var flags := (if rule.transfer == Some(true) then ["transfer"] else [])
      + [rule.direction.value] + ["pattern"] + rest;
    var params := NumberFields("group", rule.group) + (NumberFields("priority", rule.priority) + flags);
    assert AttributeFields(rule) + ["pattern"] + rest == params;
    ReadNumber("group", rule.group, NumberFields("priority", rule.priority) + flags, NO_RULE);
    var g := NO_RULE.(group := rule.group);
    ReadNumber("priority", rule.priority, flags, g);
    ReadFlags(rule, g.(priority := rule.priority), rest);
  }

  /** The parameters that follow the port in a printed command. */
  function Printed(name: string, port: int, rule: Rule): seq<string>
    requires Accepted(rule) && SubCommand(name)
  {
    SplitPrint(name, port, rule);
    Split(Print(name, port, rule))[3..]
  }

  lemma ParsePrinted(name: string, port: int, rule: Rule)
    requires Accepted(rule) && SubCommand(name)
    ensures Printed(name, port, rule) == RuleFields(rule)
    ensures var afterPattern := ["actions"] + ListFields(rule.actions);
            var (pattern, rest) := ItemsOf(ListFields(rule.pattern) + afterPattern, "");
            ParseRule(RuleFields(rule)) ==
            match ListOf("actions", rest)
            case None => None
            case Some((actions, _)) => Some(ReadAttributes(rule).(pattern := pattern, actions := actions))
  {
    hide Split, AttributesOf, ItemsOf, AttributeFields, ListFields;
    SplitPrint(name, port, rule);
    var afterPattern := ["actions"] + ListFields(rule.actions);
    var tail := ListFields(rule.pattern) + afterPattern;
    AttributesRoundTrip(rule, tail);
    assert RuleFields(rule) == AttributeFields(rule) + ["pattern"] + tail;
    assert (["pattern"] + tail)[1..] == tail;
  }

  /**
   * Reading back a printed rule gives the rule with every item stripped of
   * trailing white space, an empty list as one empty item, and no `transfer`
   * unless it was set.
   */
  lemma RoundTrip(name: string, port: int, rule: Rule)
    requires Accepted(rule) && SubCommand(name)
    requires Clean(rule.pattern) && Clean(rule.actions)
    ensures ParseRule(Printed(name, port, rule)) ==
            Some(ReadAttributes(rule).(pattern := Stripped(Listed(rule.pattern)),
                                       actions := Stripped(Listed(rule.actions))))
  {
    hide Split, ItemsOf, ParseRule, ListFields, Print, Clean, Stripped;
    ParsePrinted(name, port, rule);
    ListRoundTrip(rule.pattern, ["actions"] + ListFields(rule.actions));
    ListRoundTrip(rule.actions, []);
    assert (["actions"] + ListFields(rule.actions))[1..] == ListFields(rule.actions) + [];
    ListFieldsLong(rule.actions);
  }

  lemma ListFieldsLong(items: seq<string>)
    ensures |ListFields(items)| >= 2
  {
  }

  lemma ReadsSame(rule: Rule, actions: seq<string>)
    ensures ReadAttributes(rule).(pattern := rule.pattern, actions := actions) == rule
       <==> rule.transfer != Some(false) && actions == rule.actions
  {
    var read := ReadAttributes(rule).(pattern := rule.pattern, actions := actions);
    match rule.transfer {
      case None =>
        assert read.transfer == rule.transfer;
      case Some(b) =>
        if b {
          assert rule.transfer == Some(true);
        }
    }
    assert read == Rule(rule.group, rule.priority, read.transfer, rule.direction, rule.pattern, actions);
  }

  /** Exactly the rules that come back as they were. */
  lemma RoundTripIff(name: string, port: int, rule: Rule)
    requires Accepted(rule) && SubCommand(name)
    ensures ParseRule(Printed(name, port, rule)) == Some(rule)
       <==> rule.transfer != Some(false) && Returns(rule.pattern) && Returns(rule.actions)
  {
    hide Split, ItemsOf, ParseRule, ListFields, Print, Clean, Stripped;
    ParsePrinted(name, port, rule);
    var afterPattern := ["actions"] + ListFields(rule.actions);
    ListRoundTrip(rule.pattern, afterPattern);
    if Returns(rule.pattern) {
      ListRoundTrip(rule.actions, []);
      ListFieldsLong(rule.actions);
      assert afterPattern[1..] == ListFields(rule.actions) + [];
      var (actions, rest) := ListOf("actions", afterPattern).value;
      var read := ReadAttributes(rule).(pattern := rule.pattern, actions := actions);
      assert ItemsOf(ListFields(rule.pattern) + afterPattern, "") == (rule.pattern, afterPattern);
      ReadsSame(rule, actions);
    }
  }

  /** A rule that says `transfer` is false comes back without the word. */
  lemma TransferFalseIsLost(name: string, port: int, rule: Rule)
    requires Accepted(rule) && SubCommand(name) && rule.transfer == Some(false)
    requires Clean(rule.pattern) && Clean(rule.actions)
    ensures ParseRule(Printed(name, port, rule)).Some? && ParseRule(Printed(name, port, rule)).value.transfer == None
  {
    hide ParseRule, Printed, Clean;
    RoundTrip(name, port, rule);
  }
}
