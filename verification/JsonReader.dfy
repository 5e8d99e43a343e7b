/**
 * What a reader gets back from the texts the JSON helpers print: the names and
 * values of members, strings, and the contents of arrays and blocks.
 */
module JsonReader {
  import opened JsonHelper
  import opened CommandResponse
  import opened Text

  // Nesting

  predicate Opening(c: char) {
    c == '[' || c == '{'
  }

  predicate Closing(c: char) {
    c == ']' || c == '}'
  }

  /** How deep in brackets, and whether inside a string, a reader is behind a text; `None` if
      the text closes a bracket it has not opened. */
  function After(s: string, depth: nat, quoted: bool): Option<(nat, bool)> {
    if s == "" then Some((depth, quoted))
    else if s[0] == '"' then After(s[1..], depth, !quoted)
    else if quoted then After(s[1..], depth, quoted)
    else if Opening(s[0]) then After(s[1..], depth + 1, quoted)
    else if Closing(s[0]) then if depth == 0 then None else After(s[1..], depth - 1, quoted)
    else After(s[1..], depth, quoted)
  }

  /** How far it is to the first comma outside of brackets and strings, or to the end. */
  function Cut(s: string, depth: nat, quoted: bool): (n: nat)
    ensures n <= |s|
  {
    if s == "" || (s[0] == ',' && depth == 0 && !quoted) then 0
    else if s[0] == '"' then 1 + Cut(s[1..], depth, !quoted)
    else if quoted then 1 + Cut(s[1..], depth, quoted)
    else if Opening(s[0]) then 1 + Cut(s[1..], depth + 1, quoted)
    else if Closing(s[0]) && depth > 0 then 1 + Cut(s[1..], depth - 1, quoted)
    else 1 + Cut(s[1..], depth, quoted)
  }

  /** Every bracket and string that a text opens is closed in it, and no other. */
  predicate Nested(s: string) {
    After(s, 0, false) == Some((0, false))
  }

  /** A text that is nested and has no comma outside of brackets and strings: one value or member. */
  predicate Single(s: string) {
    Nested(s) && Cut(s, 0, false) == |s|
  }

  lemma {:induction false} AfterBoth(a: string, b: string, depth: nat, quoted: bool)
    ensures var m := After(a, depth, quoted);
            After(a + b, depth, quoted) == if m.None? then None else After(b, m.value.0, m.value.1)
  {
    if a == "" {
      assert a + b == b;
    } else {
      assert (a + b)[1..] == a[1..] + b;
      AfterBoth(a[1..], b, depth, !quoted);
      AfterBoth(a[1..], b, depth, quoted);
      AfterBoth(a[1..], b, depth + 1, quoted);
      if depth > 0 {
        AfterBoth(a[1..], b, depth - 1, quoted);
      }
    }
  }

  lemma {:induction false} CutBoth(a: string, b: string, depth: nat, quoted: bool)
    requires Cut(a, depth, quoted) == |a| && After(a, depth, quoted).Some?
    ensures var m := After(a, depth, quoted).value;
            Cut(a + b, depth, quoted) == |a| + Cut(b, m.0, m.1)
  {
    if a == "" {
      assert a + b == b;
    } else {
      assert (a + b)[1..] == a[1..] + b;
      if a[0] == '"' {
        CutBoth(a[1..], b, depth, !quoted);
      } else if quoted {
        CutBoth(a[1..], b, depth, quoted);
      } else if Opening(a[0]) {
        CutBoth(a[1..], b, depth + 1, quoted);
      } else if Closing(a[0]) {
        CutBoth(a[1..], b, depth - 1, quoted);
      } else {
        CutBoth(a[1..], b, depth, quoted);
      }
    }
  }

  /* Inside a bracket nothing is cut. */
  lemma {:induction false} Deeper(s: string, depth: nat, quoted: bool)
    requires After(s, depth, quoted).Some?
    ensures var m := After(s, depth, quoted).value;
            After(s, depth + 1, quoted) == Some((m.0 + 1, m.1)) && Cut(s, depth + 1, quoted) == |s|
  {
    if s != "" {
      if s[0] == '"' {
        Deeper(s[1..], depth, !quoted);
      } else if quoted {
        Deeper(s[1..], depth, quoted);
      } else if Opening(s[0]) {
        Deeper(s[1..], depth + 1, quoted);
      } else if Closing(s[0]) {
        Deeper(s[1..], depth - 1, quoted);
      } else {
        Deeper(s[1..], depth, quoted);
      }
    }
  }

  /* Inside a string nothing is cut. */
  lemma {:induction false} InString(s: string, depth: nat)
    requires '"' !in s
    ensures After(s, depth, true) == Some((depth, true)) && Cut(s, depth, true) == |s|
  {
    if s != "" {
      assert s[0] in s;
      InString(s[1..], depth);
    }
  }

  lemma {:induction false} Plain(s: string, depth: nat)
    requires forall c :: c in s ==> c != '"' && c != ',' && !Opening(c) && !Closing(c)
    ensures After(s, depth, false) == Some((depth, false)) && Cut(s, depth, false) == |s|
  {
    if s != "" {
      assert s[0] in s;
      assert forall c :: c in s[1..] ==> c in s;
      Plain(s[1..], depth);
    }
  }

  lemma SingleBoth(a: string, b: string)
    requires Single(a) && Single(b)
    ensures Single(a + b)
  {
    AfterBoth(a, b, 0, false);
    CutBoth(a, b, 0, false);
  }

  // What the helpers print is single

  lemma QuotedIsSingle(s: string)
    requires '"' !in s
    ensures Single(Quoted(s))
  {
    InString(s, 0);
    var t := s + "\"";
    AfterBoth(s, "\"", 0, true);
    CutBoth(s, "\"", 0, true);
    assert Quoted(s)[1..] == t;
    assert "\""[1..] == "";
  }

  lemma MemberIsSingle(name: string, value: string)
    requires '"' !in name && Single(value)
    ensures Single(Member(name, value))
  {
    hide Single;
    QuotedIsSingle(name);
    ColonIsSingle();
    SingleBoth(Quoted(name), ": ");
    SingleBoth(Quoted(name) + ": ", value);
  }

  lemma ColonIsSingle()
    ensures Single(": ")
  {
    Plain(": ", 0);
  }

  lemma NumberIsSingle(n: int)
    ensures Single(Decimal(n))
  {
    var d := Digits(if n < 0 then -n else n);
    assert forall i :: 0 <= i < |d| ==> IsDigit(d[i]);
    assert forall c :: c in Decimal(n) ==> c == '-' || IsDigit(c);
    Plain(Decimal(n), 0);
  }

  /* A nested text between two brackets. */
  lemma BetweenIsSingle(open: char, s: string, close: char)
    requires Opening(open) && Closing(close) && Nested(s)
    ensures Single([open] + " " + s + " " + [close])
  {
    var tail := " " + [close];
    var inner := " " + s + tail;
    Deeper(s, 0, false);
    Plain(" ", 1);
    AfterBoth(" ", s, 1, false);
    CutBoth(" ", s, 1, false);
    AfterBoth(" " + s, tail, 1, false);
    CutBoth(" " + s, tail, 1, false);
    assert tail[1..] == [close] && [close][1..] == "";
    assert After([close], 1, false) == Some((0, false)) && Cut([close], 1, false) == 1;
    var all := [open] + " " + s + " " + [close];
    assert all[1..] == inner;
  }

  lemma BracketsAreSingle(s: string)
    requires Nested(s)
    ensures Single(Brackets(s)) && Single(Braces("", s))
  {
    BetweenIsSingle('[', s, ']');
    BetweenIsSingle('{', s, '}');
    assert Brackets(s) == ['['] + " " + s + " " + [']'];
    assert Braces("", s) == ['{'] + " " + s + " " + ['}'];
  }

  // Reading entries

  /** The entries of a text, separated by a comma and a blank. */
  function Entries(s: string): Option<seq<string>>
    decreases |s|
  {
    if s == "" then Some([])
    else
      var n := Cut(s, 0, false);
      if n == |s| then Some([s])
      else if |s| <= n + 2 || s[n+1] != ' ' then None
      else
        var rest := Entries(s[n+2..]);
        if rest.None? then None else Some([s[..n]] + rest.value)
  }

  ghost predicate AllSingle(entries: seq<string>) {
    forall i :: 0 <= i < |entries| ==> Single(entries[i]) && entries[i] != ""
  }

  /* The entries of a join are the texts that were joined. */
  lemma {:induction false} JoinIsRead(entries: seq<string>)
    requires AllSingle(entries)
    ensures Entries(Join(entries)) == Some(entries)
  {
    hide Cut, After;
    if |entries| == 1 {
      assert entries == [entries[0]];
    } else if |entries| > 1 {
      var first, rest := entries[0], Join(entries[1..]);
      assert AllSingle(entries[1..]) && entries[1..] != [];
      JoinIsRead(entries[1..]);
      JoinIsNotEmpty(entries[1..]);
      CutBoth(first, ", " + rest, 0, false);
      CutAtComma(rest);
      var s := Join(entries);
      assert s == first + (", " + rest);
      assert s[..|first|] == first && s[|first|+2..] == rest && s[|first|+1] == ' ';
      assert [first] + entries[1..] == entries;
    }
  }

  lemma CutAtComma(rest: string)
    ensures Cut(", " + rest, 0, false) == 0
  {
  }

  lemma JoinIsNotEmpty(entries: seq<string>)
    requires entries != [] && entries[0] != ""
    ensures Join(entries) != ""
  {
  }

  // Reading members and strings

  /** A text up to a quote; a text with an escape is not what is between the quotes. */
  function UpToQuote(s: string): Option<string> {
    if s == "" || s[0] == '\\' then None
    else if s[0] == '"' then Some("")
    else
      var rest := UpToQuote(s[1..]);
      if rest.None? then None else Some([s[0]] + rest.value)
  }

  /** A string in quotes, and what follows it. */
  function ReadString(s: string): Option<(string, string)> {
    if s == "" || s[0] != '"' then None
    else
      var t := UpToQuote(s[1..]);
      if t.None? || |s| < |t.value| + 2 then None else Some((t.value, s[|t.value|+2..]))
  }

  function ReadMember(s: string): Option<(string, string)> {
    var t := ReadString(s);
    if t.None? || !(": " <= t.value.1) then None else Some((t.value.0, t.value.1[2..]))
  }

  predicate Simple(s: string) {
    '"' !in s && '\\' !in s
  }

  lemma {:induction false} QuoteEnds(s: string, rest: string)
    ensures UpToQuote(s + "\"" + rest) == Some(s) <==> Simple(s)
    ensures UpToQuote(s + "\"" + rest).Some? ==> |UpToQuote(s + "\"" + rest).value| <= |s|
  {
    var all := s + "\"" + rest;
    if s != "" {
      assert all[1..] == s[1..] + "\"" + rest;
      QuoteEnds(s[1..], rest);
      assert s == [s[0]] + s[1..];
      assert Simple(s) <==> s[0] != '"' && s[0] != '\\' && Simple(s[1..]);
    } else {
      assert all[0] == '"';
    }
  }

  /* A string is read back exactly when it has neither quotes nor backslashes: the helpers do not
     escape them. */
  lemma StringIsReadIff(s: string, rest: string)
    ensures ReadString(Quoted(s) + rest) == Some((s, rest)) <==> Simple(s)
  {
    QuoteEnds(s, rest);
    var all := Quoted(s) + rest;
    assert all[1..] == s + "\"" + rest;
    assert all[|s|+2..] == rest;
  }

  lemma MemberIsRead(name: string, value: string)
    requires Simple(name)
    ensures ReadMember(Member(name, value)) == Some((name, value))
  {
    StringIsReadIff(name, ": " + value);
    assert Member(name, value) == Quoted(name) + (": " + value);
    assert (": " + value)[2..] == value;
  }

  /* A block with a name is a member whose value is the block. */
  lemma BlockIsRead(name: string, val: string)
    requires name != "" && Simple(name) && Nested(val)
    ensures ReadMember(Braces(name, val)) == Some((name, "{ " + val + " }")) && Single(Braces(name, val))
  {
    BracketsAreSingle(val);
    assert Braces("", val) == "{ " + val + " }";
    hide ReadMember, Single;
    MemberIsRead(name, "{ " + val + " }");
    MemberIsSingle(name, "{ " + val + " }");
  }

  /** The names and values of the members of a text. */
  function Members(s: string): Option<seq<(string, string)>> {
    var e := Entries(s);
    if e.None? then None else ReadAll(e.value)
  }

  function ReadAll(entries: seq<string>): Option<seq<(string, string)>> {
    if entries == [] then Some([])
    else
      var first, rest := ReadMember(entries[0]), ReadAll(entries[1..]);
      if first.None? || rest.None? then None else Some([first.value] + rest.value)
  }

  function Texts(members: seq<(string, string)>): (r: seq<string>)
    ensures |r| == |members| && forall i :: 0 <= i < |r| ==> r[i] == Member(members[i].0, members[i].1)
  {
    seq(|members|, i requires 0 <= i < |members| => Member(members[i].0, members[i].1))
  }

  ghost predicate Readable(members: seq<(string, string)>) {
    forall i :: 0 <= i < |members| ==> Simple(members[i].0) && Single(members[i].1)
  }

  lemma {:induction false} AllAreRead(members: seq<(string, string)>)
    requires Readable(members)
    ensures ReadAll(Texts(members)) == Some(members)
  {
    hide ReadMember, Member, Single, Simple;
    if members != [] {
      MemberIsRead(members[0].0, members[0].1);
      AllAreRead(members[1..]);
      assert Texts(members)[1..] == Texts(members[1..]);
      assert [members[0]] + members[1..] == members;
    }
  }

  /* Members joined with commas are read back, names and values, in order. */
  lemma MembersAreRead(members: seq<(string, string)>)
    requires Readable(members)
    ensures Members(Join(Texts(members))) == Some(members)
  {
    hide Join, Entries, ReadAll, Single;
    forall i | 0 <= i < |members| ensures Single(Texts(members)[i]) && Texts(members)[i] != "" {
      MemberIsSingle(members[i].0, members[i].1);
    }
    JoinIsRead(Texts(members));
    AllAreRead(members);
  }

  /* Appending a member to members gives members with one more. */
  lemma AppendedIsRead(members: seq<(string, string)>, name: string, value: string)
    requires Readable(members) && Simple(name) && Single(value)
    ensures Members(More(Join(Texts(members)), Member(name, value))) == Some(members + [(name, value)])
  {
    hide Members, Join, Single, Simple;
    var all := members + [(name, value)];
    MembersAreRead(all);
    assert Texts(all) == Texts(members) + [Member(name, value)];
    assert "" !in Texts(members) && Member(name, value) != "";
    JoinOne(Texts(members), Member(name, value));
  }

  /** The text between two brackets and their blanks. */
  function Inside(s: string): string
    requires |s| >= 4
  {
    s[2..|s|-2]
  }

  /* The results of a command are read back: one block for each, in order, and in each block the
     fragments that were not empty. */
  lemma ResultsAreRead(results: seq<seq<Option<string>>>)
    requires AllResultsWritten(results)
    requires forall i :: 0 <= i < |results| ==> AllSingle(NonEmpty(Written(results[i])))
    ensures var text := Brackets(Join(Blocks(results)));
            && Single(text) && Inside(text) == Join(Blocks(results))
            && Entries(Join(Blocks(results))) == Some(Blocks(results))
            && forall i :: 0 <= i < |results| ==>
                 && |Blocks(results)[i]| >= 4
                 && Entries(Inside(Blocks(results)[i])) == Some(NonEmpty(Written(results[i])))
  {
    hide Entries, Join, NonEmpty, Single, Written;
    forall i | 0 <= i < |results|
      ensures && Single(Blocks(results)[i]) && |Blocks(results)[i]| >= 4
              && Entries(Inside(Blocks(results)[i])) == Some(NonEmpty(Written(results[i])))
    {
      var list := Join(NonEmpty(Written(results[i])));
      JoinIsNested(NonEmpty(Written(results[i])));
      JoinIsRead(NonEmpty(Written(results[i])));
      BracketsAreSingle(list);
      assert Inside(Braces("", list)) == list;
    }
    JoinIsRead(Blocks(results));
    JoinIsNested(Blocks(results));
    BracketsAreSingle(Join(Blocks(results)));
  }

  lemma {:induction false} JoinIsNested(entries: seq<string>)
    requires AllSingle(entries)
    ensures Nested(Join(entries))
  {
    hide Cut;
    if |entries| > 1 {
      var first, rest := entries[0], Join(entries[1..]);
      assert AllSingle(entries[1..]);
      JoinIsNested(entries[1..]);
      AfterBoth(first, ", ", 0, false);
      AfterBoth(first + ", ", rest, 0, false);
      CommaIsNested();
    }
  }

  lemma CommaIsNested()
    ensures After(", ", 0, false) == Some((0, false))
  {
    assert ", "[1..] == " " && " "[1..] == "";
  }
}
