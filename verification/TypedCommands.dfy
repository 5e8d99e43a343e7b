/**
 * Flow commands as a user may type them: attributes in any order and any number
 * of times, words nobody knows, items with any words. What the parser of the
 * command line tool and that of the primary process make of them.
 */
module TypedCommands {
  import opened Text
  import C = FlowCommand
  import P = FlowParser

  /** A keyword with its number, or any other word but "pattern". */
  datatype Word = Number(key: string, text: string) | Flag(word: string)

  predicate TypedWord(w: Word) {
    if w.Number? then w.key == "group" || w.key == "priority"
    else w.word != "group" && w.word != "priority" && w.word != "pattern"
  }

  predicate Typed(ws: seq<Word>) {
    forall i :: 0 <= i < |ws| ==> TypedWord(ws[i])
  }

  function Texts(w: Word): seq<string> {
    if w.Number? then [w.key, w.text] else [w.word]
  }

  function Flat(ws: seq<Word>): seq<string> {
    if ws == [] then [] else Texts(ws[0]) + Flat(ws[1..])
  }

  /** The text of the last number given for a keyword. */
  function LastNumber(ws: seq<Word>, key: string): Option<string> {
    if ws == [] then None
    else
      var later := LastNumber(ws[1..], key);
      if later.Some? then later
      else if ws[0].Number? && ws[0].key == key then Some(ws[0].text) else None
  }

  /** The last word that is a direction. */
  function LastDirection(ws: seq<Word>): Option<string> {
    if ws == [] then None
    else
      var later := LastDirection(ws[1..]);
      if later.Some? then later
      else if ws[0] == Flag("ingress") || ws[0] == Flag("egress") then Some(ws[0].word) else None
  }

  // The command line tool

  predicate IsInt(w: Word) {
    w.Number? ==> ParseInt(w.text).Some?
  }

  predicate AllInts(ws: seq<Word>) {
    forall i :: 0 <= i < |ws| ==> IsInt(ws[i])
  }

  /** A rule after attributes: for each the last one given counts. */
  function Given(ws: seq<Word>, rule: C.Rule): C.Rule {
    var group, priority, direction := LastNumber(ws, "group"), LastNumber(ws, "priority"), LastDirection(ws);
    rule.(group := if group.None? then rule.group else ParseInt(group.value),
          priority := if priority.None? then rule.priority else ParseInt(priority.value),
          direction := if direction.None? then rule.direction else direction,
          transfer := if Flag("transfer") in ws then Some(true) else rule.transfer)
  }

  function GivenOne(w: Word, rule: C.Rule): C.Rule
    requires IsInt(w)
  {
    match w
    case Number(key, text) =>
      if key == "group" then rule.(group := ParseInt(text)) else rule.(priority := ParseInt(text))
    case Flag(word) =>
      if word == "ingress" || word == "egress" then rule.(direction := Some(word))
      else if word == "transfer" then rule.(transfer := Some(true)) else rule
  }

  lemma FirstAttribute(w: Word, rest: seq<string>, rule: C.Rule)
    requires TypedWord(w)
    ensures C.AttributesOf(Texts(w) + rest, rule)
         == if IsInt(w) then C.AttributesOf(rest, GivenOne(w, rule)) else None
  {
    hide ParseInt;
    var all := Texts(w) + rest;
    if w.Number? {
      assert all[2..] == rest && all[0] == w.key && all[1] == w.text;
    } else {
      assert all[1..] == rest && all[0] == w.word;
    }
  }

  lemma GivenFirst(ws: seq<Word>, rule: C.Rule)
    requires ws != [] && Typed(ws) && IsInt(ws[0])
    ensures Given(ws, rule) == Given(ws[1..], GivenOne(ws[0], rule))
  {
    hide ParseInt;
  }

  lemma AllIntsFirst(ws: seq<Word>)
    requires ws != []
    ensures AllInts(ws) <==> IsInt(ws[0]) && AllInts(ws[1..])
  {
    hide IsInt;
    assert forall i :: 0 < i < |ws| ==> ws[i] == ws[1..][i-1];
  }

  lemma {:induction false} AttributesOfAny(ws: seq<Word>, rest: seq<string>, rule: C.Rule)
    requires Typed(ws)
    ensures C.AttributesOf(Flat(ws) + rest, rule)
         == if AllInts(ws) then C.AttributesOf(rest, Given(ws, rule)) else None
  {
    hide IsInt, TypedWord, C.AttributesOf, GivenOne;
    if ws == [] {
      assert Flat(ws) + rest == rest;
      assert Given(ws, rule) == rule;
    } else {
      assert Flat(ws) + rest == Texts(ws[0]) + (Flat(ws[1..]) + rest);
      FirstAttribute(ws[0], Flat(ws[1..]) + rest, rule);
      AllIntsFirst(ws);
      if IsInt(ws[0]) {
        AttributesOfAny(ws[1..], rest, GivenOne(ws[0], rule));
        GivenFirst(ws, rule);
      }
    }
  }

  /** The words of groups, each closed by a slash. */
  function Groups(groups: seq<seq<string>>): seq<string> {
    if groups == [] then [] else groups[0] + ["/"] + Groups(groups[1..])
  }

  predicate CleanGroups(groups: seq<seq<string>>) {
    forall i :: 0 <= i < |groups| ==> C.CleanFields(groups[i])
  }

  /** The words of each group with a blank between them, stripped at the end. */
  function Items(groups: seq<seq<string>>): seq<string> {
    if groups == [] then [] else [Rstrip(Sentence(groups[0]))] + Items(groups[1..])
  }

  /* Items are the groups of words closed by a slash, up to "end" or the last word; words that no
     slash closes are lost. */
  lemma {:induction false} ItemsOfAny(groups: seq<seq<string>>, tail: seq<string>, ending: seq<string>)
    requires CleanGroups(groups) && C.CleanFields(tail) && (ending == [] || ending[0] == "end")
    ensures C.ItemsOf(Groups(groups) + tail + ending, "")
         == (Items(groups), if ending == [] then [] else ending[1..])
  {
    hide Rstrip, Sentence;
    if groups == [] {
      C.GatherFields(tail, ending, "");
      assert Groups(groups) + tail + ending == tail + ending;
    } else {
      var more := Groups(groups[1..]) + tail + ending;
      assert Groups(groups) + tail + ending == groups[0] + (["/"] + more);
      C.GatherFields(groups[0], ["/"] + more, "");
      assert (["/"] + more)[1..] == more;
      assert "" + Sentence(groups[0]) == Sentence(groups[0]);
      ItemsOfAny(groups[1..], tail, ending);
    }
  }

  /** The parameters of a command: attributes, pattern and actions. */
  function Command(ws: seq<Word>, pattern: seq<seq<string>>, lost: seq<string>, actions: seq<seq<string>>,
                   lost': seq<string>): seq<string> {
    var acts := ["actions"] + (Groups(actions) + lost' + ["end"]);
    Flat(ws) + (["pattern"] + (Groups(pattern) + lost + (["end"] + acts)))
  }

  /* Every typed command is read, exactly when its numbers are numbers, as the last value given
     for each attribute and the items closed by slashes. */
  lemma TypedIsRead(ws: seq<Word>, pattern: seq<seq<string>>, lost: seq<string>, actions: seq<seq<string>>,
                    lost': seq<string>)
    requires Typed(ws) && CleanGroups(pattern) && CleanGroups(actions)
    requires C.CleanFields(lost) && C.CleanFields(lost')
    ensures C.ParseRule(Command(ws, pattern, lost, actions, lost'))
         == if AllInts(ws) then Some(Given(ws, C.NO_RULE).(pattern := Items(pattern), actions := Items(actions)))
            else None
  {
    hide Flat, Groups, Items, C.ItemsOf, Given, AllInts, C.CleanFields, CleanGroups;
    var acts := ["actions"] + (Groups(actions) + lost' + ["end"]);
    var pats := ["pattern"] + (Groups(pattern) + lost + (["end"] + acts));
    AttributesOfAny(ws, pats, C.NO_RULE);
    ItemsOfAny(pattern, lost, ["end"] + acts);
    ItemsOfAny(actions, lost', ["end"]);
    assert pats[1..] == Groups(pattern) + lost + (["end"] + acts);
    assert acts[1..] == Groups(actions) + lost' + ["end"];
    assert (["end"] + acts)[1..] == acts;
  }

  /* Without the word "pattern", or with a keyword at the end, there is no rule. */
  lemma IncompleteIsRefused(ws: seq<Word>, key: string)
    requires Typed(ws) && (key == "group" || key == "priority")
    ensures C.ParseRule(Flat(ws)) == None && C.ParseRule(Flat(ws) + [key]) == None
  {
    hide Flat, Given, AllInts;
    AttributesOfAny(ws, [], C.NO_RULE);
    AttributesOfAny(ws, [key], C.NO_RULE);
    assert Flat(ws) + [] == Flat(ws);
  }

  // The primary process

  /** A word the primary process knows, or a number it can read. */
  predicate IsKnown(w: Word) {
    match w
    case Number(_, text) => P.Strtoul(text, 10).Some?
    case Flag(word) => word == "ingress" || word == "egress" || word == "transfer"
  }

  predicate AllKnown(ws: seq<Word>) {
    forall i :: 0 <= i < |ws| ==> IsKnown(ws[i])
  }

  /** The low 32 bits of a number, or another if there is none. */
  function Uint32Of(text: Option<string>, none: nat): nat {
    if text.None? || P.Strtoul(text.value, 10).None? then none else P.Strtoul(text.value, 10).value % 0x1_0000_0000
  }

  function Told(ws: seq<Word>, attr: P.Attr): P.Attr {
    P.Attr(Uint32Of(LastNumber(ws, "group"), attr.group), Uint32Of(LastNumber(ws, "priority"), attr.priority),
           attr.ingress || Flag("ingress") in ws, attr.egress || Flag("egress") in ws,
           attr.transfer || Flag("transfer") in ws)
  }

  function ToldOne(w: Word, attr: P.Attr): P.Attr {
    match w
    case Number(key, text) =>
      if key == "group" then attr.(group := Uint32Of(Some(text), attr.group))
      else attr.(priority := Uint32Of(Some(text), attr.priority))
    case Flag(word) =>
      attr.(ingress := attr.ingress || word == "ingress", egress := attr.egress || word == "egress",
            transfer := attr.transfer || word == "transfer")
  }

  lemma FirstAttr(w: Word, rest: seq<string>, attr: P.Attr)
    requires TypedWord(w)
    ensures P.AttrOf(Texts(w) + rest, attr) == if IsKnown(w) then P.AttrOf(rest, ToldOne(w, attr)) else P.Fail
  {
    hide P.Strtoul;
    var all := Texts(w) + rest;
    if w.Number? {
      assert all[2..] == rest && all[0] == w.key && all[1] == w.text;
    } else {
      assert all[1..] == rest && all[0] == w.word;
    }
  }

  lemma {:induction false} LastIsNumber(ws: seq<Word>, key: string)
    requires AllKnown(ws)
    ensures LastNumber(ws, key).Some? ==> P.Strtoul(LastNumber(ws, key).value, 10).Some?
  {
    hide P.Strtoul;
    if ws != [] {
      assert IsKnown(ws[0]);
      LastIsNumber(ws[1..], key);
    }
  }

  lemma ToldFirst(ws: seq<Word>, attr: P.Attr)
    requires ws != [] && Typed(ws) && AllKnown(ws[1..])
    ensures Told(ws, attr) == Told(ws[1..], ToldOne(ws[0], attr))
  {
    NumberFirst(ws, "group", attr.group);
    NumberFirst(ws, "priority", attr.priority);
    hide Uint32Of, LastNumber, AllKnown;
    FlagFirst(ws, "ingress");
    FlagFirst(ws, "egress");
    FlagFirst(ws, "transfer");
  }

  lemma FlagFirst(ws: seq<Word>, word: string)
    requires ws != []
    ensures Flag(word) in ws <==> ws[0] == Flag(word) || Flag(word) in ws[1..]
  {
    assert ws == [ws[0]] + ws[1..];
  }

  lemma NumberFirst(ws: seq<Word>, key: string, none: nat)
    requires ws != [] && AllKnown(ws[1..])
    ensures var first := if ws[0].Number? && ws[0].key == key then Uint32Of(Some(ws[0].text), none) else none;
            Uint32Of(LastNumber(ws, key), none) == Uint32Of(LastNumber(ws[1..], key), first)
  {
    hide P.Strtoul;
    LastIsNumber(ws[1..], key);
  }

  lemma AllKnownFirst(ws: seq<Word>)
    requires ws != []
    ensures AllKnown(ws) <==> IsKnown(ws[0]) && AllKnown(ws[1..])
  {
    hide IsKnown;
    assert forall i :: 0 < i < |ws| ==> ws[i] == ws[1..][i-1];
  }

  lemma {:induction false} AttrOfAny(ws: seq<Word>, rest: seq<string>, attr: P.Attr)
    requires Typed(ws)
    ensures P.AttrOf(Flat(ws) + rest, attr) == if AllKnown(ws) then P.AttrOf(rest, Told(ws, attr)) else P.Fail
  {
    hide IsKnown, TypedWord, P.AttrOf, ToldOne;
    if ws == [] {
      assert Flat(ws) + rest == rest;
      assert Told(ws, attr) == attr;
    } else {
      assert Flat(ws) + rest == Texts(ws[0]) + (Flat(ws[1..]) + rest);
      FirstAttr(ws[0], Flat(ws[1..]) + rest, attr);
      AllKnownFirst(ws);
      if IsKnown(ws[0]) {
        AttrOfAny(ws[1..], rest, ToldOne(ws[0], attr));
        if AllKnown(ws[1..]) {
          ToldFirst(ws, attr);
        }
      }
    }
  }

  /* The primary process reads attributes in any order, the last number of each counting and both
     directions if both are given; a word it does not know, a bad number and a missing "pattern"
     are refused. */
  lemma AttributesAreTold(ws: seq<Word>, rest: seq<string>)
    requires Typed(ws)
    ensures P.AttrOf(Flat(ws) + (["pattern"] + rest), P.NO_ATTR)
         == if AllKnown(ws) then P.Ok(Told(ws, P.NO_ATTR), ["pattern"] + rest) else P.Fail
    ensures P.AttrOf(Flat(ws), P.NO_ATTR) == P.Fail
    ensures P.AttrOf(Flat(ws) + ["group"], P.NO_ATTR) == P.Fail
  {
    hide Flat, Told, AllKnown;
    AttrOfAny(ws, ["pattern"] + rest, P.NO_ATTR);
    AttrOfAny(ws, [], P.NO_ATTR);
    AttrOfAny(ws, ["group"], P.NO_ATTR);
    assert Flat(ws) + [] == Flat(ws);
  }
}
