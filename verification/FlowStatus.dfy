/**
 * The status text of a port's flow rules: `append_flow_json`,
 * src/primary/flow/flow.c:968-1041. The list is walked from the newest rule to
 * the oldest and each text is put in front of the ones before it.
 */
module FlowStatus {
  import opened FlowRules
  import opened Sequences
  import opened Text

  /** The text of one rule, or `None` when it cannot be made. */
  type RuleText = Rule -> Option<string>

  /** `snprintf` into a buffer of `size` bytes. */
  function Snprintf(s: string, size: nat): string
    requires size > 0
  {
    if |s| < size then s else s[..size-1]
  }

  /** Rule texts have passed through a buffer of the same size. */
  ghost predicate Fits(text: RuleText, size: nat) {
    forall r :: text(r).Some? ==> 0 < |text(r).value| < size
  }

  predicate Told(rules: seq<Rule>, text: RuleText) {
    forall i :: 0 <= i < |rules| ==> text(rules[i]).Some?
  }

  /** The texts of a list that runs from the newest rule to the oldest, oldest first. */
  function OldestFirst(rules: seq<Rule>, text: RuleText): (s: string)
    requires rules != [] && Told(rules, text)
  {
    var last := |rules| - 1;
    if last == 0 then text(rules[0]).value
    else text(rules[last]).value + "," + OldestFirst(rules[..last], text)
  }

  lemma {:induction false} OldestFirstGrows(rules: seq<Rule>, text: RuleText, k: nat)
    requires 0 < k <= |rules| && Told(rules, text)
    ensures |OldestFirst(rules[..k], text)| <= |OldestFirst(rules, text)|
  {
    if k == |rules| {
      assert rules[..k] == rules;
    } else {
      var most := rules[..|rules|-1];
      assert most[..k] == rules[..k];
      OldestFirstGrows(most, text, k);
    }
  }

  lemma OldestFirstMore(rules: seq<Rule>, text: RuleText, k: nat)
    requires k < |rules| && Told(rules[..k], text) && text(rules[k]).Some?
    ensures Told(rules[..k+1], text)
    ensures OldestFirst(rules[..k+1], text)
         == if k == 0 then text(rules[k]).value else text(rules[k]).value + "," + OldestFirst(rules[..k], text)
  {
    assert rules[..k+1][..k] == rules[..k];
    assert rules[..k+1] == rules[..k] + [rules[k]];
  }

  lemma ToldSoFar(rules: seq<Rule>, text: RuleText, k: nat)
    requires k <= |rules|
    ensures Told(rules, text) ==> Told(rules[..k], text)
    ensures k < |rules| && text(rules[k]).None? ==> !Told(rules, text)
    ensures k == |rules| ==> rules[..k] == rules
  {
  }

  /** What makes the call succeed; `junk` is the text that happens to be in the memory the
      code allocates for a rule, which it measures if there is no rule. */
  predicate Succeeds(rules: seq<Rule>, text: RuleText, size: nat, junk: string) {
    if rules == [] then |junk| + 2 < size
    else
      Told(rules, text) && |OldestFirst(rules, text)| < size && |text(rules[|rules|-1]).value| + 2 < size
  }

  /** What a successful call prints. */
  function Status(rules: seq<Rule>, text: RuleText, size: nat): string
    requires size > 0 && Told(rules, text)
  {
    Snprintf("[" + (if rules == [] then "" else OldestFirst(rules, text)) + "]", size)
  }

  method AppendFlowJson(port: PortFlow, text: RuleText, size: nat, junk: string) returns (ok: bool, output: string)
    requires port.Valid() && size > 0 && Fits(text, size)
    ensures ok == Succeeds(port.rules, text, size, junk)
    ensures ok ==> Told(port.rules, text) && output == Status(port.rules, text, size)
  {
    hide OldestFirst, Told, Fits, Distinct;
    ghost var rules := port.rules;
    var flow, strSize, flowStr := port.flowList, 0, junk;
    ghost var k := 0;
    ok, output := true, "";
    ToldNone(rules, text);
    while flow != null
      invariant 0 <= k <= |rules| && flow == port.At(k)
      invariant Told(rules[..k], text) && strSize == |output| && |output| < size
      invariant k == 0 <==> strSize == 0
      invariant k == 0 ==> flowStr == junk
      invariant k > 0 ==> text(rules[k-1]) == Some(flowStr) && output == OldestFirst(rules[..k], text)
      decreases |rules| - k
    {
      var t := text(Rule(flow.id, flow.handle));
      assert t == text(rules[k]);
      ToldSoFar(rules, text, k);
      if t.None? {
        return false, output;
      }
      OldestFirstMore(rules, text, k);
      TextFits(rules[k], text, size);
      flowStr := t.value;
      if strSize == 0 {
        output := Snprintf(flowStr, size);
        strSize := strSize + |flowStr|;
      } else {
        strSize := strSize + |flowStr| + 1;
        if strSize > size - 1 {
          if Told(rules, text) {
            OldestFirstGrows(rules, text, k + 1);
          }
          return false, output;
        }
        output := Snprintf(flowStr + "," + output, size);
      }
      flow := flow.prev;
      k := k + 1;
    }
    ToldSoFar(rules, text, k);
    if 2 + |flowStr| > size - 1 {
      return false, output;
    }
    output := Snprintf("[" + output + "]", size);
  }

  lemma ToldNone(rules: seq<Rule>, text: RuleText)
    ensures Told(rules[..0], text)
  {
  }

  lemma TextFits(r: Rule, text: RuleText, size: nat)
    requires Fits(text, size) && text(r).Some?
    ensures 0 < |text(r).value| < size
  {
  }

  // What the text says

  /** The texts of rules in the order given, with commas between them. */
  function Listing(rules: seq<Rule>, text: RuleText): string
    requires rules != [] && Told(rules, text)
  {
    if |rules| == 1 then text(rules[0]).value else text(rules[0]).value + "," + Listing(rules[1..], text)
  }

  function Reversed(rules: seq<Rule>): (r: seq<Rule>)
    ensures |r| == |rules| && forall i :: 0 <= i < |r| ==> r[i] == rules[|rules|-1-i]
  {
    seq(|rules|, i requires 0 <= i < |rules| => rules[|rules|-1-i])
  }

  lemma {:induction false} OldestFirstIsListing(rules: seq<Rule>, text: RuleText)
    requires rules != [] && Told(rules, text)
    ensures OldestFirst(rules, text) == Listing(Reversed(rules), text)
  {
    var last := |rules| - 1;
    if last > 0 {
      OldestFirstIsListing(rules[..last], text);
      assert Reversed(rules)[1..] == Reversed(rules[..last]);
    }
  }

  ghost predicate AscendingIds(rules: seq<Rule>) {
    forall i, j :: 0 <= i < j < |rules| ==> rules[i].id < rules[j].id
  }

  /**
   * After any operations on the rules of a port: the status lists the rules
   * in ascending order of their IDs, whole exactly when the list and its two
   * brackets fit.
   */
  lemma StatusIsAscending(run: seq<Event>, text: RuleText, size: nat)
    requires IsRun(NO_RULES, run) && size > 0 && Told(End(NO_RULES, run).rules, text)
    ensures var rules := End(NO_RULES, run).rules;
            var list := if rules == [] then "" else Listing(Reversed(rules), text);
            && AscendingIds(Reversed(rules))
            && (Status(rules, text, size) == "[" + list + "]" <==> |list| + 2 < size)
  {
    var rules := End(NO_RULES, run).rules;
    ListStaysDescending(NO_RULES, run);
    if rules != [] {
      OldestFirstIsListing(rules, text);
    }
  }

  /** A call succeeds exactly when every rule can be told, the list fits the buffer and the text
      of the oldest rule fits with two brackets. */
  lemma SucceedsIff(rules: seq<Rule>, text: RuleText, size: nat, junk: string)
    requires rules != []
    ensures Succeeds(rules, text, size, junk) <==>
              && (forall r :: r in rules ==> text(r).Some?)
              && |Listing(Reversed(rules), text)| < size
              && |text(Reversed(rules)[0]).value| + 2 < size
  {
    assert (forall r :: r in rules ==> text(r).Some?) <==> Told(rules, text);
    if Told(rules, text) {
      OldestFirstIsListing(rules, text);
    }
  }

  /**
   * The last length check looks at one rule and not at the list. A call that
   * succeeds has printed the whole list exactly when it fits with its brackets,
   * and otherwise has lost the bracket, or the bracket and the last character.
   */
  lemma {:induction false} SuccessIsWholeIffItFits(rules: seq<Rule>, text: RuleText, size: nat, junk: string)
    requires rules != [] && size > 0 && Succeeds(rules, text, size, junk)
    ensures var list := Listing(Reversed(rules), text);
            var whole := "[" + list + "]";
            && (Status(rules, text, size) == whole <==> |list| + 2 < size)
            && (Status(rules, text, size) != whole ==>
                  Status(rules, text, size) == if |list| + 2 == size then "[" + list else "[" + list[..|list|-1])
  {
    OldestFirstIsListing(rules, text);
    var list := Listing(Reversed(rules), text);
    var whole := "[" + list + "]";
    if |list| + 2 == size {
      assert whole[..size-1] == "[" + list;
    } else if |list| + 2 > size {
      assert whole[..size-1] == "[" + list[..|list|-1];
    }
  }

  lemma {:induction false} StatusMayLoseItsEnd(junk: string)
    ensures var rules := [Rule(1, 1), Rule(0, 0)];
            var text: RuleText := (r: Rule) => Some(if r.id == 0 then "aaa" else "bbb");
            && Succeeds(rules, text, 8, junk) && Status(rules, text, 8) == "[aaa,bb"
  {
    var rules := [Rule(1, 1), Rule(0, 0)];
    var text: RuleText := (r: Rule) => Some(if r.id == 0 then "aaa" else "bbb");
    assert rules[..1] == [Rule(1, 1)];
    assert OldestFirst(rules[..1], text) == "bbb";
    assert OldestFirst(rules, text) == "aaa,bbb";
    OldestFirstIsListing(rules, text);
    SuccessIsWholeIffItFits(rules, text, 8, junk);
  }

  /** Whether a port without rules is told at all depends on memory nobody has written. */
  lemma EmptyStatusDependsOnMemory(text: RuleText, size: nat, junk: string)
    requires size > 0
    ensures Succeeds([], text, size, junk) <==> |junk| + 2 < size
    ensures size > 2 ==> Status([], text, size) == "[]" && Succeeds([], text, size, "")
    ensures !Succeeds([], text, size, seq(size, _ => 'x'))
  {
    assert "[" + "" + "]" == "[]";
  }
}
