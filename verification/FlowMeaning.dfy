/**
 * What a flow command means to the primary process: the structure of items and
 * actions, the objects they stand for, and the proof that the parser finds
 * exactly those in the command that spp-ctl prints.
 */
module FlowMeaning {
  import opened Text
  import opened FlowParser
  import FC = FlowCommand

  // The structure of items and actions

  /** A field alone, or a field with the way it is matched and the value. */
  datatype Clause = Flag(field: string) | Match(field: string, how: string, text: string)

  datatype ItemText = ItemText(name: string, clauses: seq<Clause>)

  /** A field alone, or a field and its value. */
  datatype Argument = Bare(field: string) | Arg(field: string, text: string)

  datatype ActionText = ActionText(name: string, arguments: seq<Argument>)

  function ClauseWords(c: Clause): seq<string> {
    match c
    case Flag(f) => [f]
    case Match(f, how, text) => [f, how, text]
  }

  function ClausesWords(cs: seq<Clause>): seq<string> {
    if cs == [] then [] else ClauseWords(cs[0]) + ClausesWords(cs[1..])
  }

  function ArgumentWords(a: Argument): seq<string> {
    match a
    case Bare(f) => [f]
    case Arg(f, text) => [f, text]
  }

  function ArgumentsWords(args: seq<Argument>): seq<string> {
    if args == [] then [] else ArgumentWords(args[0]) + ArgumentsWords(args[1..])
  }

  function ItemWords(item: ItemText): seq<string> {
    [item.name] + ClausesWords(item.clauses)
  }

  function ActionWords(action: ActionText): seq<string> {
    [action.name] + ArgumentsWords(action.arguments)
  }

  /** The words of every element, each closed by a slash. */
  function Slashed(lists: seq<seq<string>>): seq<string> {
    if lists == [] then [] else lists[0] + ["/"] + Slashed(lists[1..])
  }

  function AllItemWords(items: seq<ItemText>): (r: seq<seq<string>>)
    ensures |r| == |items| && forall i :: 0 <= i < |r| ==> r[i] == ItemWords(items[i])
  {
    seq(|items|, i requires 0 <= i < |items| => ItemWords(items[i]))
  }

  function AllActionWords(actions: seq<ActionText>): (r: seq<seq<string>>)
    ensures |r| == |actions| && forall i :: 0 <= i < |r| ==> r[i] == ActionWords(actions[i])
  {
    seq(|actions|, i requires 0 <= i < |actions| => ActionWords(actions[i]))
  }

  // The meaning of an item

  /** A clause has a value exactly when its field, if known, takes one. */
  predicate ClauseShaped(details: seq<Detail>, c: Clause) {
    c.field != "/" && var d := FindDetail(details, c.field); d.Some? ==> d.value.hasValue == c.Match?
  }

  predicate ClauseValid(convert: Converts, details: seq<Detail>, c: Clause) {
    var d := FindDetail(details, c.field);
    d.Some? &&
    (c.Match? ==>
      if c.how == "prefix" then
        var n := Strtoul(c.text, 10);
        n.Some? && ToUint32(n.value) <= d.value.size * 8
      else IsRelation(c.how) && convert(d.value.conversion, c.text))
  }

  datatype Part = OnSpec | OnLast | OnMask

  /** What one clause writes to the value, the upper bound or the mask of its item. */
  function ClauseWrites(details: seq<Detail>, c: Clause, part: Part): seq<Write> {
    var d := FindDetail(details, c.field);
    if c.Flag? || d.None? then []
    else
      match part
      case OnSpec => if c.how == "is" || c.how == "spec" then [Value(d.value, c.text)] else []
      case OnLast => if c.how == "last" then [Value(d.value, c.text)] else []
      case OnMask =>
        if c.how == "is" then [Ones(d.value)]
        else if c.how == "mask" then [Value(d.value, c.text)]
        else if c.how == "prefix" && Strtoul(c.text, 10).Some? then
          [Leading(d.value, ToUint32(Strtoul(c.text, 10).value))]
        else []
  }

  function Writes(details: seq<Detail>, cs: seq<Clause>, part: Part): seq<Write> {
    if cs == [] then [] else ClauseWrites(details, cs[0], part) + Writes(details, cs[1..], part)
  }

  /** An object exists when something was written to it. */
  function AddAll(o: Object, ws: seq<Write>): Object {
    if ws == [] then o else if o.None? then Some(ws) else Some(o.value + ws)
  }

  function After(details: seq<Detail>, cs: seq<Clause>, o: Objects): Objects {
    Objects(AddAll(o.spec, Writes(details, cs, OnSpec)),
            AddAll(o.last, Writes(details, cs, OnLast)),
            AddAll(o.mask, Writes(details, cs, OnMask)))
  }

  predicate Shaped(details: seq<Detail>, cs: seq<Clause>) {
    forall i :: 0 <= i < |cs| ==> ClauseShaped(details, cs[i])
  }

  predicate Valid(convert: Converts, details: seq<Detail>, cs: seq<Clause>) {
    forall i :: 0 <= i < |cs| ==> ClauseValid(convert, details, cs[i])
  }

  function Wrote(details: seq<Detail>, c: Clause, o: Objects): Objects {
    Objects(AddAll(o.spec, ClauseWrites(details, c, OnSpec)),
            AddAll(o.last, ClauseWrites(details, c, OnLast)),
            AddAll(o.mask, ClauseWrites(details, c, OnMask)))
  }

  lemma OneField(convert: Converts, details: seq<Detail>, c: Clause, rest: seq<string>, o: Objects)
    requires c.Match? && FindDetail(details, c.field).Some?
    ensures FieldOf(convert, FindDetail(details, c.field).value, [c.how, c.text] + rest, o)
         == if ClauseValid(convert, details, c) then Ok(Wrote(details, c, o), rest) else Fail
  {
    hide Strtoul, FindDetail;
    assert ([c.how, c.text] + rest)[2..] == rest;
  }

  lemma AddAllMore(o: Object, a: seq<Write>, b: seq<Write>)
    ensures AddAll(AddAll(o, a), b) == AddAll(o, a + b)
  {
    if o.Some? {
      assert o.value + a + b == o.value + (a + b);
    }
    assert a == [] ==> a + b == b;
    assert b == [] ==> a + b == a;
  }

  lemma AfterMore(details: seq<Detail>, cs: seq<Clause>, o: Objects)
    requires cs != []
    ensures After(details, cs[1..], Wrote(details, cs[0], o)) == After(details, cs, o)
  {
    hide ClauseWrites, AddAll;
    var c, more := cs[0], cs[1..];
    AddAllMore(o.spec, ClauseWrites(details, c, OnSpec), Writes(details, more, OnSpec));
    AddAllMore(o.last, ClauseWrites(details, c, OnLast), Writes(details, more, OnLast));
    AddAllMore(o.mask, ClauseWrites(details, c, OnMask), Writes(details, more, OnMask));
  }

  lemma AfterNone(details: seq<Detail>, o: Objects)
    ensures After(details, [], o) == o
  {
  }

  lemma OneFlag(details: seq<Detail>, c: Clause, o: Objects)
    requires c.Flag?
    ensures Wrote(details, c, o) == o
  {
  }

  /* Clauses are read one after the other, whatever follows them. */
  lemma {:induction false} ItemOfAny(convert: Converts, details: seq<Detail>, cs: seq<Clause>,
                                     rest: seq<string>, o: Objects)
    requires Shaped(details, cs)
    ensures ItemOf(convert, details, ClausesWords(cs) + rest, o)
         == if Valid(convert, details, cs) then ItemOf(convert, details, rest, After(details, cs, o)) else Fail
    decreases |cs|
  {
    hide FieldOf, FindDetail, After, Wrote;
    var words := ClausesWords(cs) + rest;
    if cs == [] {
      assert words == rest;
      AfterNone(details, o);
    } else {
      var c, more := cs[0], ClausesWords(cs[1..]) + rest;
      assert ClauseShaped(details, c);
      assert words == ClauseWords(c) + more;
      ValidMore(convert, details, cs);
      if FindDetail(details, c.field).Some? {
        var o' := Wrote(details, c, o);
        ItemOfAny(convert, details, cs[1..], rest, o');
        AfterMore(details, cs, o);
        if c.Match? {
          assert words[1..] == [c.how, c.text] + more;
          OneField(convert, details, c, more, o);
        } else {
          assert words[1..] == more;
          OneFlag(details, c, o);
        }
      }
    }
  }

  /** The parser finds what the clauses of an item stand for, or refuses one of them. */
  lemma ItemIsRead(convert: Converts, details: seq<Detail>, cs: seq<Clause>, rest: seq<string>, o: Objects)
    requires Shaped(details, cs)
    ensures ItemOf(convert, details, ClausesWords(cs) + ["/"] + rest, o)
         == if Valid(convert, details, cs) then Ok(After(details, cs, o), ["/"] + rest) else Fail
  {
    ItemOfAny(convert, details, cs, ["/"] + rest, o);
    assert ClausesWords(cs) + ["/"] + rest == ClausesWords(cs) + (["/"] + rest);
  }

  /** A command that ends behind a field, or behind how it is matched, makes the parser look
      behind the end of the words. */
  lemma ItemIsCutOff(convert: Converts, details: seq<Detail>, cs: seq<Clause>, field: string, how: string)
    requires Shaped(details, cs) && Valid(convert, details, cs) && field != "/" && IsRelation(how)
    requires FindDetail(details, field).Some? && FindDetail(details, field).value.hasValue
    ensures ItemOf(convert, details, ClausesWords(cs) + [field], NO_OBJECTS) == Undefined
    ensures ItemOf(convert, details, ClausesWords(cs) + [field, how], NO_OBJECTS) == Undefined
  {
    ItemOfAny(convert, details, cs, [field], NO_OBJECTS);
    ItemOfAny(convert, details, cs, [field, how], NO_OBJECTS);
    hide After, FindDetail;
    assert [field][1..] == [] && [field, how][1..] == [how];
  }

  lemma ValidMore(convert: Converts, details: seq<Detail>, cs: seq<Clause>)
    requires cs != []
    ensures Valid(convert, details, cs) <==> ClauseValid(convert, details, cs[0]) && Valid(convert, details, cs[1..])
  {
    assert cs == [cs[0]] + cs[1..];
  }

  // The meaning of a pattern

  /** The entry "end" closes a list and reads nothing. */
  predicate HasEnd(table: seq<Ops>) {
    FindOps(table, "end").Some? && !FindOps(table, "end").value.parses
  }

  predicate ItemShaped(table: seq<Ops>, item: ItemText) {
    item.name != "end" &&
    var ops := FindOps(table, item.name);
    ops.Some? ==> ops.value.parses && Shaped(ops.value.details, item.clauses)
  }

  predicate ItemValid(convert: Converts, table: seq<Ops>, item: ItemText) {
    var ops := FindOps(table, item.name);
    ops.Some? && Valid(convert, ops.value.details, item.clauses)
  }

  function ItemMeaning(table: seq<Ops>, item: ItemText): (r: Item)
    ensures r.name == item.name
  {
    var ops := FindOps(table, item.name);
    Item(item.name, if ops.None? then NO_OBJECTS else After(ops.value.details, item.clauses, NO_OBJECTS))
  }

  function PatternMeaning(table: seq<Ops>, items: seq<ItemText>): (r: seq<Item>)
    ensures |r| == |items| && forall i :: 0 <= i < |r| ==> r[i] == ItemMeaning(table, items[i])
  {
    seq(|items|, i requires 0 <= i < |items| => ItemMeaning(table, items[i]))
  }

  predicate PatternShaped(table: seq<Ops>, items: seq<ItemText>) {
    forall i :: 0 <= i < |items| ==> ItemShaped(table, items[i])
  }

  predicate PatternValid(convert: Converts, table: seq<Ops>, items: seq<ItemText>) {
    forall i :: 0 <= i < |items| ==> ItemValid(convert, table, items[i])
  }

  const END_ITEM := Item("end", NO_OBJECTS)

  lemma OneItemIsRead(convert: Converts, table: seq<Ops>, item: ItemText, rest: seq<string>)
    requires ItemShaped(table, item) && FindOps(table, item.name).Some?
    ensures OneItem(convert, FindOps(table, item.name).value, ItemWords(item) + ["/"] + rest)
         == if ItemValid(convert, table, item) then Ok(ItemMeaning(table, item), ["/"] + rest) else Fail
  {
    hide ItemOf, FindOps, After;
    var ops := FindOps(table, item.name).value;
    ItemIsRead(convert, ops.details, item.clauses, rest, NO_OBJECTS);
    assert (ItemWords(item) + ["/"] + rest)[1..] == ClausesWords(item.clauses) + ["/"] + rest;
  }

  lemma EndItemIsRead(convert: Converts, table: seq<Ops>, rest: seq<string>)
    requires HasEnd(table)
    ensures PatternOf(convert, table, ["end"] + rest) == Ok([END_ITEM], ["end"] + rest)
  {
  }

  lemma PatternStep(convert: Converts, table: seq<Ops>, item: ItemText, rest: seq<string>)
    requires ItemShaped(table, item)
    ensures PatternOf(convert, table, ItemWords(item) + ["/"] + rest)
         == if ItemValid(convert, table, item) then Prepend([ItemMeaning(table, item)], PatternOf(convert, table, rest))
            else Fail
  {
    hide OneItem, FindOps, Prepend, ItemMeaning;
    if FindOps(table, item.name).Some? {
      OneItemIsRead(convert, table, item, rest);
      assert (["/"] + rest)[1..] == rest;
    }
  }

  lemma PatternSplit(table: seq<Ops>, items: seq<ItemText>)
    requires items != []
    ensures AllItemWords(items) == [ItemWords(items[0])] + AllItemWords(items[1..])
    ensures PatternMeaning(table, items) == [ItemMeaning(table, items[0])] + PatternMeaning(table, items[1..])
  {
    hide ItemMeaning, ItemWords;
  }

  lemma PatternValidSplit(convert: Converts, table: seq<Ops>, items: seq<ItemText>)
    requires items != []
    ensures PatternShaped(table, items) ==> ItemShaped(table, items[0]) && PatternShaped(table, items[1..])
    ensures PatternValid(convert, table, items) <==>
              ItemValid(convert, table, items[0]) && PatternValid(convert, table, items[1..])
  {
    hide ItemShaped, ItemValid;
    assert forall i :: 1 <= i < |items| ==> items[i] == items[1..][i-1];
  }

  lemma NoPatternIsRead(convert: Converts, table: seq<Ops>, rest: seq<string>)
    requires HasEnd(table)
    ensures PatternOf(convert, table, Slashed(AllItemWords([])) + ["end"] + rest)
         == Ok(PatternMeaning(table, []) + [END_ITEM], ["end"] + rest)
    ensures PatternValid(convert, table, [])
  {
    hide PatternOf;
    assert Slashed(AllItemWords([])) + ["end"] + rest == ["end"] + rest;
    EndItemIsRead(convert, table, rest);
    assert PatternMeaning(table, []) + [END_ITEM] == [END_ITEM];
  }

  lemma SlashedMore(first: seq<string>, more: seq<seq<string>>, rest: seq<string>)
    ensures Slashed([first] + more) + ["end"] + rest == first + ["/"] + (Slashed(more) + ["end"] + rest)
  {
    assert ([first] + more)[1..] == more;
  }

  /** The parser finds the items in order, closed by one end, or refuses one of them. */
  lemma {:induction false} PatternIsRead(convert: Converts, table: seq<Ops>, items: seq<ItemText>, rest: seq<string>)
    requires HasEnd(table) && PatternShaped(table, items)
    ensures PatternOf(convert, table, Slashed(AllItemWords(items)) + ["end"] + rest)
         == if PatternValid(convert, table, items) then Ok(PatternMeaning(table, items) + [END_ITEM], ["end"] + rest)
            else Fail
    decreases |items|
  {
    hide PatternOf, ItemMeaning, ItemShaped, ItemValid, ItemWords, PatternMeaning, PatternShaped, PatternValid,
      AllItemWords, Slashed, HasEnd;
    if items == [] {
      NoPatternIsRead(convert, table, rest);
    } else {
      var item, items' := items[0], items[1..];
      var more := Slashed(AllItemWords(items')) + ["end"] + rest;
      PatternSplit(table, items);
      PatternValidSplit(convert, table, items);
      SlashedMore(ItemWords(item), AllItemWords(items'), rest);
      PatternStep(convert, table, item, more);
      PatternIsRead(convert, table, items', rest);
      assert [ItemMeaning(table, item)] + PatternMeaning(table, items') + [END_ITEM]
          == [ItemMeaning(table, item)] + (PatternMeaning(table, items') + [END_ITEM]);
    }
  }

  // The meaning of actions

  predicate ArgumentShaped(details: seq<Detail>, a: Argument) {
    a.field != "/" && var d := FindDetail(details, a.field); d.Some? ==> d.value.hasValue == a.Arg?
  }

  predicate ArgumentValid(convert: Converts, details: seq<Detail>, a: Argument) {
    var d := FindDetail(details, a.field);
    d.Some? && (a.Arg? ==> convert(d.value.conversion, a.text))
  }

  /** The values given to an action, in order. */
  function ArgumentWrites(details: seq<Detail>, args: seq<Argument>): seq<Write> {
    if args == [] then []
    else
      var d := FindDetail(details, args[0].field);
      (if args[0].Arg? && d.Some? then [Value(d.value, args[0].text)] else []) + ArgumentWrites(details, args[1..])
  }

  predicate ArgumentsShaped(details: seq<Detail>, args: seq<Argument>) {
    forall i :: 0 <= i < |args| ==> ArgumentShaped(details, args[i])
  }

  predicate ArgumentsValid(convert: Converts, details: seq<Detail>, args: seq<Argument>) {
    forall i :: 0 <= i < |args| ==> ArgumentValid(convert, details, args[i])
  }

  predicate ActionShaped(table: seq<Ops>, action: ActionText) {
    action.name != "end" &&
    var ops := FindOps(table, action.name);
    ops.Some? ==> if ops.value.parses then ArgumentsShaped(ops.value.details, action.arguments)
                  else action.arguments == []
  }

  predicate ActionValid(convert: Converts, table: seq<Ops>, action: ActionText) {
    var ops := FindOps(table, action.name);
    ops.Some? && (ops.value.parses ==> ArgumentsValid(convert, ops.value.details, action.arguments))
  }

  function ActionMeaning(table: seq<Ops>, action: ActionText): (r: Action)
    ensures r.name == action.name
  {
    var ops := FindOps(table, action.name);
    Action(action.name, if ops.Some? && ops.value.parses then Some(ArgumentWrites(ops.value.details, action.arguments))
                        else None)
  }

  function ActionsMeaning(table: seq<Ops>, actions: seq<ActionText>): (r: seq<Action>)
    ensures |r| == |actions| && forall i :: 0 <= i < |r| ==> r[i] == ActionMeaning(table, actions[i])
  {
    seq(|actions|, i requires 0 <= i < |actions| => ActionMeaning(table, actions[i]))
  }

  predicate ActionsShaped(table: seq<Ops>, actions: seq<ActionText>) {
    forall i :: 0 <= i < |actions| ==> ActionShaped(table, actions[i])
  }

  predicate ActionsValid(convert: Converts, table: seq<Ops>, actions: seq<ActionText>) {
    forall i :: 0 <= i < |actions| ==> ActionValid(convert, table, actions[i])
  }

  const END_ACTION := Action("end", None)

  lemma FirstArgument(convert: Converts, details: seq<Detail>, a: Argument, rest: seq<string>, conf: seq<Write>)
    requires ArgumentShaped(details, a)
    ensures ArgumentsOf(convert, details, ArgumentWords(a) + rest, conf)
         == if ArgumentValid(convert, details, a) then
              ArgumentsOf(convert, details, rest, conf + ArgumentWrites(details, [a]))
            else Fail
  {
    hide FindDetail;
    var words := ArgumentWords(a) + rest;
    assert [a][1..] == [] && ArgumentWrites(details, []) == [];
    var d := FindDetail(details, a.field);
    if a.Arg? {
      assert words[2..] == rest && words[0] == a.field && words[1] == a.text;
      if d.Some? {
        assert ArgumentWrites(details, [a]) == [Value(d.value, a.text)] + [] == [Value(d.value, a.text)];
      }
    } else {
      assert words[1..] == rest && words[0] == a.field;
      assert ArgumentWrites(details, [a]) == [] + [] == [];
      assert conf + [] == conf;
    }
  }

  lemma ArgumentsFirst(convert: Converts, details: seq<Detail>, args: seq<Argument>)
    requires args != []
    ensures ArgumentsValid(convert, details, args) <==>
              ArgumentValid(convert, details, args[0]) && ArgumentsValid(convert, details, args[1..])
    ensures ArgumentWrites(details, args) == ArgumentWrites(details, [args[0]]) + ArgumentWrites(details, args[1..])
  {
    hide ArgumentValid, FindDetail;
    assert args == [args[0]] + args[1..];
    assert [args[0]][1..] == [] && ArgumentWrites(details, []) == [];
  }

  lemma {:induction false} ArgumentsOfAny(convert: Converts, details: seq<Detail>, args: seq<Argument>,
                                          rest: seq<string>, conf: seq<Write>)
    requires ArgumentsShaped(details, args)
    ensures ArgumentsOf(convert, details, ArgumentsWords(args) + rest, conf)
         == if ArgumentsValid(convert, details, args) then
              ArgumentsOf(convert, details, rest, conf + ArgumentWrites(details, args))
            else Fail
    decreases |args|
  {
    hide ArgumentsOf, ArgumentShaped, ArgumentValid, ArgumentWords;
    if args == [] {
      assert ArgumentsWords(args) + rest == rest;
      assert conf + ArgumentWrites(details, args) == conf;
    } else {
      var more, writes := ArgumentsWords(args[1..]) + rest, ArgumentWrites(details, [args[0]]);
      assert ArgumentsWords(args) + rest == ArgumentWords(args[0]) + more;
      FirstArgument(convert, details, args[0], more, conf);
      ArgumentsFirst(convert, details, args);
      ArgumentsOfAny(convert, details, args[1..], rest, conf + writes);
      assert conf + writes + ArgumentWrites(details, args[1..]) == conf + ArgumentWrites(details, args);
    }
  }

  lemma ArgumentsAreRead(convert: Converts, details: seq<Detail>, args: seq<Argument>, rest: seq<string>,
                         conf: seq<Write>)
    requires ArgumentsShaped(details, args)
    ensures ArgumentsOf(convert, details, ArgumentsWords(args) + ["/"] + rest, conf)
         == if ArgumentsValid(convert, details, args) then Ok(conf + ArgumentWrites(details, args), ["/"] + rest)
            else Fail
  {
    ArgumentsOfAny(convert, details, args, ["/"] + rest, conf);
    assert ArgumentsWords(args) + ["/"] + rest == ArgumentsWords(args) + (["/"] + rest);
  }

  lemma OneActionIsRead(convert: Converts, table: seq<Ops>, action: ActionText, rest: seq<string>)
    requires ActionShaped(table, action) && FindOps(table, action.name).Some?
    ensures OneAction(convert, FindOps(table, action.name).value, ActionWords(action) + ["/"] + rest)
         == if ActionValid(convert, table, action) then Ok(ActionMeaning(table, action), ["/"] + rest) else Fail
  {
    hide ArgumentsOf, FindOps;
    var ops := FindOps(table, action.name).value;
    assert (ActionWords(action) + ["/"] + rest)[1..] == ArgumentsWords(action.arguments) + ["/"] + rest;
    if ops.parses {
      ArgumentsAreRead(convert, ops.details, action.arguments, rest, []);
      var ws := ArgumentWrites(ops.details, action.arguments);
      assert [] + ws == ws;
    } else {
      assert ArgumentsWords(action.arguments) + ["/"] + rest == ["/"] + rest;
    }
  }

  lemma EndActionIsRead(convert: Converts, table: seq<Ops>, rest: seq<string>)
    requires HasEnd(table)
    ensures ActionsOf(convert, table, ["end"] + rest) == Ok([END_ACTION], rest)
  {
    assert (["end"] + rest)[1..] == rest;
  }

  lemma ActionsStep(convert: Converts, table: seq<Ops>, action: ActionText, rest: seq<string>)
    requires ActionShaped(table, action)
    ensures ActionsOf(convert, table, ActionWords(action) + ["/"] + rest)
         == if ActionValid(convert, table, action) then
              Prepend([ActionMeaning(table, action)], ActionsOf(convert, table, rest))
            else Fail
  {
    hide OneAction, FindOps, Prepend, ActionMeaning;
    if FindOps(table, action.name).Some? {
      OneActionIsRead(convert, table, action, rest);
      assert (["/"] + rest)[1..] == rest;
    }
  }

  lemma ActionsSplit(table: seq<Ops>, actions: seq<ActionText>)
    requires actions != []
    ensures AllActionWords(actions) == [ActionWords(actions[0])] + AllActionWords(actions[1..])
    ensures ActionsMeaning(table, actions) == [ActionMeaning(table, actions[0])] + ActionsMeaning(table, actions[1..])
  {
    hide ActionMeaning, ActionWords;
  }

  lemma ActionsValidSplit(convert: Converts, table: seq<Ops>, actions: seq<ActionText>)
    requires actions != []
    ensures ActionsShaped(table, actions) ==> ActionShaped(table, actions[0]) && ActionsShaped(table, actions[1..])
    ensures ActionsValid(convert, table, actions)
       <==> ActionValid(convert, table, actions[0]) && ActionsValid(convert, table, actions[1..])
  {
    hide ActionShaped, ActionValid;
    assert forall i :: 1 <= i < |actions| ==> actions[i] == actions[1..][i-1];
  }

  lemma NoActionsAreRead(convert: Converts, table: seq<Ops>, rest: seq<string>)
    requires HasEnd(table)
    ensures ActionsOf(convert, table, Slashed(AllActionWords([])) + ["end"] + rest)
         == Ok(ActionsMeaning(table, []) + [END_ACTION], rest)
    ensures ActionsValid(convert, table, [])
  {
    hide ActionsOf;
    assert Slashed(AllActionWords([])) + ["end"] + rest == ["end"] + rest;
    EndActionIsRead(convert, table, rest);
    assert ActionsMeaning(table, []) + [END_ACTION] == [END_ACTION];
  }

  /** The parser finds the actions in order, closed by one end, or refuses one of them. */
  lemma {:induction false} ActionsAreRead(convert: Converts, table: seq<Ops>, actions: seq<ActionText>,
                                          rest: seq<string>)
    requires HasEnd(table) && ActionsShaped(table, actions)
    ensures ActionsOf(convert, table, Slashed(AllActionWords(actions)) + ["end"] + rest)
         == if ActionsValid(convert, table, actions) then Ok(ActionsMeaning(table, actions) + [END_ACTION], rest)
            else Fail
    decreases |actions|
  {
    hide ActionsOf, ActionMeaning, ActionShaped, ActionValid, ActionWords, ActionsMeaning, ActionsShaped, ActionsValid,
      AllActionWords, Slashed, HasEnd;
    if actions == [] {
      NoActionsAreRead(convert, table, rest);
    } else {
      var action, actions' := actions[0], actions[1..];
      var more := Slashed(AllActionWords(actions')) + ["end"] + rest;
      ActionsSplit(table, actions);
      ActionsValidSplit(convert, table, actions);
      SlashedMore(ActionWords(action), AllActionWords(actions'), rest);
      ActionsStep(convert, table, action, more);
      ActionsAreRead(convert, table, actions', rest);
      assert [ActionMeaning(table, action)] + ActionsMeaning(table, actions') + [END_ACTION]
          == [ActionMeaning(table, action)] + (ActionsMeaning(table, actions') + [END_ACTION]);
    }
  }

  // The command

  /** The attributes of a rule for the device: `strtoul` and 32 bits for the numbers, a bit for each word. */
  function AttrMeaning(rule: FC.Rule): Attr {
    Attr(NumberMeaning(rule.group), NumberMeaning(rule.priority),
         rule.direction == Some("ingress"), rule.direction == Some("egress"), rule.transfer == Some(true))
  }

  function NumberMeaning(n: Option<int>): nat {
    if n.None? then 0 else ToUint32(Ulong(n.value))
  }

  /** A number given in a rule is the number the device gets exactly when it fits in 32 bits. */
  lemma NumberIsKeptIff(n: int)
    ensures NumberMeaning(Some(n)) == n <==> 0 <= n < UINT32
  {
  }

  /** The device gets the low 32 bits of a number, or all ones for one that `strtoul` cannot hold. */
  lemma NumberIsLowBits(n: int)
    ensures NumberMeaning(Some(n))
         == if -0x1_0000_0000_0000_0000 < n < 0x1_0000_0000_0000_0000 then n % 0x1_0000_0000 else 0xffff_ffff
  {
    if -ULONG < n < 0 {
      assert ULONG == 0x1_0000_0000 * UINT32;
      assert (ULONG + n) % UINT32 == n % UINT32;
    }
  }

  lemma NumberIsRead(key: string, n: Option<int>, rest: seq<string>, attr: Attr)
    requires (key == "group" && attr.group == 0) || (key == "priority" && attr.priority == 0)
    ensures AttrOf(FC.NumberFields(key, n) + rest, attr)
         == AttrOf(rest, if key == "group" then attr.(group := NumberMeaning(n))
                         else attr.(priority := NumberMeaning(n)))
  {
    hide Strtoul, Decimal, Ulong;
    var words := FC.NumberFields(key, n) + rest;
    match n {
      case None =>
        assert words == rest;
      case Some(v) =>
        StrtoulOfDecimal(v, 10);
        assert words[2..] == rest;
    }
  }

  lemma DirectionIsRead(direction: string, attr: Attr, rest: seq<string>)
    requires direction == "ingress" || direction == "egress"
    requires !attr.ingress && !attr.egress
    ensures AttrOf([direction] + ["pattern"] + rest, attr)
         == Ok(attr.(ingress := direction == "ingress", egress := direction == "egress"), ["pattern"] + rest)
  {
    assert ([direction] + ["pattern"] + rest)[1..] == ["pattern"] + rest;
  }

  lemma FlagsAreRead(rule: FC.Rule, attr: Attr, rest: seq<string>)
    requires FC.Accepted(rule) && !attr.ingress && !attr.egress && !attr.transfer
    ensures AttrOf((if rule.transfer == Some(true) then ["transfer"] else [])
                   + [rule.direction.value] + ["pattern"] + rest, attr)
         == Ok(attr.(ingress := rule.direction == Some("ingress"), egress := rule.direction == Some("egress"),
                     transfer := rule.transfer == Some(true)), ["pattern"] + rest)
  {
    var d := [rule.direction.value] + ["pattern"] + rest;
    if rule.transfer == Some(true) {
      assert (["transfer"] + [rule.direction.value] + ["pattern"] + rest)[1..] == d;
      DirectionIsRead(rule.direction.value, attr.(transfer := true), rest);
    } else {
      assert [] + [rule.direction.value] + ["pattern"] + rest == d;
      DirectionIsRead(rule.direction.value, attr, rest);
    }
  }

  lemma AttributesAreRead(rule: FC.Rule, rest: seq<string>)
    requires FC.Accepted(rule)
    ensures AttrOf(FC.AttributeFields(rule) + ["pattern"] + rest, NO_ATTR) == Ok(AttrMeaning(rule), ["pattern"] + rest)
  {
    hide AttrOf, FC.NumberFields, NumberMeaning;
    var flags := (if rule.transfer == Some(true) then ["transfer"] else [])
      + [rule.direction.value] + ["pattern"] + rest;
    var priority := FC.NumberFields("priority", rule.priority) + flags;
    assert FC.AttributeFields(rule) + ["pattern"] + rest == FC.NumberFields("group", rule.group) + priority;
    NumberIsRead("group", rule.group, priority, NO_ATTR);
    var g := NO_ATTR.(group := NumberMeaning(rule.group));
    NumberIsRead("priority", rule.priority, flags, g);
    FlagsAreRead(rule, g.(priority := NumberMeaning(rule.priority)), rest);
  }

  /** The texts of a list have the words given. */
  predicate Spells(texts: seq<string>, words: seq<seq<string>>) {
    |texts| == |words| && forall i :: 0 <= i < |texts| ==> Words(texts[i]) == words[i]
  }

  lemma {:induction false} WordsOfItems(texts: seq<string>, words: seq<seq<string>>)
    requires Spells(texts, words)
    ensures NonEmpty(FC.ItemFields(texts)) == Slashed(words)
  {
    hide Split, NonEmpty;
    if texts != [] {
      var fields := Split(texts[0]) + ["/"];
      assert FC.ItemFields(texts) == fields + FC.ItemFields(texts[1..]);
      assert Slashed(words) == words[0] + ["/"] + Slashed(words[1..]);
      assert Words(texts[0]) == words[0] && Spells(texts[1..], words[1..]);
      WordsOfItems(texts[1..], words[1..]);
      hide FC.ItemFields, Slashed, Spells;
      NonEmptyConcat(fields, FC.ItemFields(texts[1..]));
      NonEmptyConcat(Split(texts[0]), ["/"]);
      NonEmptySlash();
    }
  }

  lemma NonEmptySlash()
    ensures NonEmpty(["/"]) == ["/"]
  {
  }

  lemma WordsOfList(texts: seq<string>, words: seq<seq<string>>)
    requires texts != [] && Spells(texts, words)
    ensures NonEmpty(FC.ListFields(texts)) == Slashed(words) + ["end"]
  {
    NonEmptyConcat(FC.ItemFields(texts), ["end"]);
    WordsOfItems(texts, words);
  }

  lemma NonEmptyAttributes(rule: FC.Rule)
    requires FC.Accepted(rule)
    ensures NonEmpty(FC.AttributeFields(rule)) == FC.AttributeFields(rule)
  {
    hide NonEmpty, Decimal;
  }

  /** The words of the rule in a printed command. */
  function RuleWords(rule: FC.Rule, pattern: seq<seq<string>>, actions: seq<seq<string>>): seq<string>
    requires FC.Accepted(rule)
  {
    FC.AttributeFields(rule) + ["pattern"] + Slashed(pattern) + ["end"] + ["actions"] + Slashed(actions) + ["end"]
  }

  lemma WordsOfRule(rule: FC.Rule, pattern: seq<seq<string>>, actions: seq<seq<string>>)
    requires FC.Accepted(rule) && rule.pattern != [] && rule.actions != []
    requires Spells(rule.pattern, pattern) && Spells(rule.actions, actions)
    ensures NonEmpty(FC.RuleFields(rule)) == RuleWords(rule, pattern, actions)
  {
    hide NonEmpty, FC.AttributeFields, FC.ListFields, Slashed;
    var a, p, q := FC.AttributeFields(rule), FC.ListFields(rule.pattern), FC.ListFields(rule.actions);
    NonEmptyConcat(a + ["pattern"] + p + ["actions"], q);
    NonEmptyConcat(a + ["pattern"] + p, ["actions"]);
    NonEmptyConcat(a + ["pattern"], p);
    NonEmptyConcat(a, ["pattern"]);
    NonEmptyAttributes(rule);
    WordsOfList(rule.pattern, pattern);
    WordsOfList(rule.actions, actions);
  }

  lemma WordsOfPrint(name: string, port: int, rule: FC.Rule, pattern: seq<seq<string>>, actions: seq<seq<string>>)
    requires FC.Accepted(rule) && FC.SubCommand(name) && rule.pattern != [] && rule.actions != []
    requires Spells(rule.pattern, pattern) && Spells(rule.actions, actions)
    ensures Words(FC.Print(name, port, rule))
         == ["flow", name, "phy:" + Decimal(port)] + RuleWords(rule, pattern, actions)
  {
    hide NonEmpty, Split, FC.Print, FC.RuleFields, RuleWords, Decimal;
    var head := ["flow", name, "phy:" + Decimal(port)];
    FC.SplitPrint(name, port, rule);
    NonEmptyConcat(head, FC.RuleFields(rule));
    WordsOfRule(rule, pattern, actions);
  }

  lemma RuleIsRead(convert: Converts, tables: Tables, rule: FC.Rule, pattern: seq<ItemText>, actions: seq<ActionText>)
    requires FC.Accepted(rule) && HasEnd(tables.items) && HasEnd(tables.actions)
    requires PatternShaped(tables.items, pattern) && ActionsShaped(tables.actions, actions)
    ensures RuleOf(convert, tables, RuleWords(rule, AllItemWords(pattern), AllActionWords(actions)))
         == if PatternValid(convert, tables.items, pattern) && ActionsValid(convert, tables.actions, actions) then
              Ok(Parsed(AttrMeaning(rule), PatternMeaning(tables.items, pattern) + [END_ITEM],
                        ActionsMeaning(tables.actions, actions) + [END_ACTION]), [])
            else Fail
  {
    hide AttrOf, PatternOf, ActionsOf, Slashed, FC.AttributeFields, HasEnd, PatternShaped, ActionsShaped,
      PatternValid, ActionsValid, AttrMeaning;
    var atActions := ["actions"] + (Slashed(AllActionWords(actions)) + ["end"] + []);
    var items := Slashed(AllItemWords(pattern)) + ["end"] + atActions;
    assert RuleWords(rule, AllItemWords(pattern), AllActionWords(actions))
        == FC.AttributeFields(rule) + ["pattern"] + items;
    AttributesAreRead(rule, items);
    assert (["pattern"] + items)[1..] == items;
    PatternIsRead(convert, tables.items, pattern, atActions);
    assert (["end"] + atActions)[2..] == Slashed(AllActionWords(actions)) + ["end"] + [];
    ActionsAreRead(convert, tables.actions, actions, []);
  }

  lemma {:induction false} NoQueue(s: string)
    requires 'n' !in s
    ensures FindQueue(s) == |s|
  {
    if s != "" {
      assert s[0] in s;
      NoQueue(s[1..]);
    }
  }

  lemma PlainDecimal(n: int)
    ensures ':' !in Decimal(n) && 'n' !in Decimal(n) && !IsSpace(Decimal(n)[0])
  {
    var s := Digits(if n < 0 then -n else n);
    assert forall i :: 0 <= i < |s| ==> IsDigit(s[i]);
  }

  /** The number of a port as `strtol` and an `int` leave it. */
  function PortMeaning(port: int): int {
    ToInt32(if port >= LONG then LONG - 1 else if port < -LONG then -LONG else port)
  }

  /** The port the primary process gets is the one printed exactly when it fits in an `int`. */
  lemma PortIsKeptIff(port: int)
    ensures PortMeaning(port) == port <==> -0x8000_0000 <= port < 0x8000_0000
  {
  }

  lemma NumberOfDecimal(port: int)
    ensures FindQueue(Decimal(port)) == |Decimal(port)|
    ensures Strtol(Decimal(port)).Some? && ToInt32(Strtol(Decimal(port)).value) == PortMeaning(port)
  {
    hide Decimal;
    PlainDecimal(port);
    NoQueue(Decimal(port));
    ParseOfDecimal(port);
  }

  /** A resource is read as a port exactly if it is a physical one, with a queue or without. */
  lemma UidIsRead(kind: string, port: int, queue: int)
    requires kind != "" && ':' !in kind
    ensures PortOf(kind + ":" + Decimal(port)) == if kind == "phy" then Ok(PortMeaning(port), []) else Fail
    ensures PortOf(kind + ":" + Decimal(port) + "nq" + Decimal(queue))
         == if kind == "phy" then Ok(PortMeaning(port), []) else Fail
  {
    hide Decimal, Strtol, Piece, FindQueue, ToInt32, PortMeaning;
    var n, q := Decimal(port), Decimal(queue);
    PlainDecimal(port);
    PlainDecimal(queue);
    NumberOfDecimal(port);
    NumberOfDecimal(queue);
    PiecesOf(kind, n);
    assert n[..|n|] == n;
    var both := n + "nq" + q;
    assert kind + ":" + n + "nq" + q == kind + ":" + both;
    PiecesOf(kind, both);
    FindsQueue(n, q);
    assert both[..|n|] == n && both[|n|+2..] == q;
  }

  lemma PiecesOf(kind: string, d: string)
    requires kind != "" && ':' !in kind && d != "" && ':' !in d
    ensures var uid := kind + ":" + d;
            ':' in uid && Piece(uid) == Some((kind, d)) && Piece(d) == Some((d, ""))
  {
    var uid := kind + ":" + d;
    CutAtColon(kind, d);
    assert uid[|kind|] == ':' && uid[0] == kind[0];
    CutAtColon(d, "");
    assert kind[0] in kind && d[0] in d;
  }

  lemma {:induction false} FindsQueue(n: string, q: string)
    requires 'n' !in n
    ensures FindQueue(n + "nq" + q) == |n|
  {
    var s := n + "nq" + q;
    if n == "" {
      assert s[..2] == "nq";
    } else {
      assert n[0] in n && s[0] == n[0];
      assert s[1..] == n[1..] + "nq" + q;
      FindsQueue(n[1..], q);
    }
  }

  /**
   * The command spp-ctl prints for a rule is read by the primary process as
   * the port and the items and actions the texts of the rule spell, in order,
   * each list closed by one end entry; or it is refused, exactly when some
   * type, field, relation or value is.
   */
  lemma {:induction false} CommandIsUnderstood(convert: Converts, tables: Tables, name: string, port: int,
                                               rule: FC.Rule, pattern: seq<ItemText>, actions: seq<ActionText>)
    requires FC.Accepted(rule) && FC.SubCommand(name) && rule.pattern != [] && rule.actions != []
    requires HasEnd(tables.items) && HasEnd(tables.actions)
    requires Spells(rule.pattern, AllItemWords(pattern)) && Spells(rule.actions, AllActionWords(actions))
    requires PatternShaped(tables.items, pattern) && ActionsShaped(tables.actions, actions)
    ensures CommandOf(convert, tables, Words(FC.Print(name, port, rule)))
         == if PatternValid(convert, tables.items, pattern) && ActionsValid(convert, tables.actions, actions) then
              Ok((PortMeaning(port), Parsed(AttrMeaning(rule), PatternMeaning(tables.items, pattern) + [END_ITEM],
                                            ActionsMeaning(tables.actions, actions) + [END_ACTION])), [])
            else Fail
  {
    hide FC.Print, RuleOf, Words, FC.AttributeFields, Slashed, Decimal, PatternShaped, ActionsShaped, HasEnd, PortOf;
    WordsOfPrint(name, port, rule, AllItemWords(pattern), AllActionWords(actions));
    RuleIsRead(convert, tables, rule, pattern, actions);
    UidIsRead("phy", port, 0);
    assert "phy" + ":" + Decimal(port) == "phy:" + Decimal(port);
    var w := RuleWords(rule, AllItemWords(pattern), AllActionWords(actions));
    assert (["flow", name, "phy:" + Decimal(port)] + w)[3..] == w;
  }

  // The tables of spp_primary, with the offsets of the structures of DPDK

  const SPP_ITEMS := [
    Ops("end", false, []),
    Ops("eth", true, [Detail("src", 6, 6, true, EtherAddr), Detail("dst", 0, 6, true, EtherAddr),
                      Detail("type", 12, 2, true, Be16)]),
    Ops("vlan", true, [Detail("tci", 0, 2, true, Tci), Detail("pcp", 0, 2, true, SetPcp),
                       Detail("dei", 0, 2, true, SetDei), Detail("vid", 0, 2, true, SetVid),
                       Detail("inner_type", 2, 2, true, Be16)])]

  const SPP_ACTIONS := [
    Ops("end", false, []),
    Ops("jump", true, [Detail("group", 0, 4, true, Uint32)]),
    Ops("queue", true, [Detail("index", 0, 2, true, Uint16)]),
    Ops("of_pop_vlan", false, []),
    Ops("of_push_vlan", true, [Detail("ethertype", 0, 2, true, Be16)]),
    Ops("of_set_vlan_vid", true, [Detail("vlan_vid", 0, 2, true, Be16)]),
    Ops("of_set_vlan_pcp", true, [Detail("vlan_pcp", 0, 1, true, Pcp)])]

  const SPP_TABLES := Tables(SPP_ITEMS, SPP_ACTIONS)

  lemma {:induction false} FoundHasValue(details: seq<Detail>, token: string)
    requires forall i :: 0 <= i < |details| ==> details[i].hasValue
    ensures FindDetail(details, token).Some? ==> FindDetail(details, token).value.hasValue
  {
    if details != [] {
      FoundHasValue(details[1..], token);
    }
  }

  lemma {:induction false} FoundOps(table: seq<Ops>, name: string)
    ensures FindOps(table, name).Some? ==> exists i :: 0 <= i < |table| && FindOps(table, name) == Some(table[i])
  {
    if table != [] && table[0].name != name {
      FoundOps(table[1..], name);
    }
  }

  /** In the tables of spp_primary every field takes a value, and every item but the end has fields. */
  lemma SppPatternShaped(items: seq<ItemText>)
    requires forall i :: 0 <= i < |items| ==> items[i].name != "end"
    requires forall i, j :: 0 <= i < |items| && 0 <= j < |items[i].clauses| ==>
               items[i].clauses[j].Match? && items[i].clauses[j].field != "/"
    ensures HasEnd(SPP_TABLES.items) && HasEnd(SPP_TABLES.actions) && PatternShaped(SPP_TABLES.items, items)
  {
    forall i | 0 <= i < |items| ensures ItemShaped(SPP_ITEMS, items[i]) {
      FoundOps(SPP_ITEMS, items[i].name);
      var ops := FindOps(SPP_ITEMS, items[i].name);
      if ops.Some? {
        forall j | 0 <= j < |items[i].clauses| ensures ClauseShaped(ops.value.details, items[i].clauses[j]) {
          FoundHasValue(ops.value.details, items[i].clauses[j].field);
        }
      }
    }
  }

  /** The same for actions: all but the end and `of_pop_vlan` take arguments, each with a value. */
  lemma SppActionsShaped(actions: seq<ActionText>)
    requires forall i :: 0 <= i < |actions| ==> actions[i].name != "end"
    requires forall i :: 0 <= i < |actions| && actions[i].name == "of_pop_vlan" ==> actions[i].arguments == []
    requires forall i, j :: 0 <= i < |actions| && 0 <= j < |actions[i].arguments| ==>
               actions[i].arguments[j].Arg? && actions[i].arguments[j].field != "/"
    ensures HasEnd(SPP_TABLES.items) && HasEnd(SPP_TABLES.actions) && ActionsShaped(SPP_TABLES.actions, actions)
  {
    forall i | 0 <= i < |actions| ensures ActionShaped(SPP_ACTIONS, actions[i]) {
      FoundOps(SPP_ACTIONS, actions[i].name);
      var ops := FindOps(SPP_ACTIONS, actions[i].name);
      if ops.Some? && ops.value.parses {
        forall j | 0 <= j < |actions[i].arguments| ensures ArgumentShaped(ops.value.details, actions[i].arguments[j]) {
          FoundHasValue(ops.value.details, actions[i].arguments[j].field);
        }
      }
    }
  }
}
