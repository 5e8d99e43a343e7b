/**
 * Responses to commands: `append_response_list_value` and
 * `append_command_results_value`,
 * src/shared/secondary/spp_worker_th/cmd_res_formatter.c:363-477.
 *
 * The functions that write the single fragments are given by what they write,
 * `None` standing for an error.
 */
module CommandResponse {
  import opened StringBuffer
  import opened JsonHelper
  import opened Text

  const CMD_RES_BUF_INIT_SIZE: nat := 2048

  // Joining

  /** The fragments with a comma and a blank between them. */
  function Join(fragments: seq<string>): string {
    if fragments == [] then ""
    else if |fragments| == 1 then fragments[0]
    else fragments[0] + ", " + Join(fragments[1..])
  }

  /** Text with one more fragment; an empty fragment leaves nothing behind. */
  function AddFragment(s: string, f: string): string {
    if f == "" then s else More(s, f)
  }

  function AddFragments(s: string, fragments: seq<string>): string {
    if fragments == [] then s
    else
      var n := |fragments| - 1;
      AddFragment(AddFragments(s, fragments[..n]), fragments[n])
  }

  lemma {:induction false} JoinMore(fragments: seq<string>, f: string)
    requires fragments != []
    ensures Join(fragments + [f]) == Join(fragments) + ", " + f
  {
    if |fragments| > 1 {
      JoinMore(fragments[1..], f);
      assert (fragments + [f])[1..] == fragments[1..] + [f];
    } else {
      assert (fragments + [f])[1..] == [f];
    }
  }

  lemma {:induction false} JoinIsEmptyIff(fragments: seq<string>)
    requires "" !in fragments
    ensures Join(fragments) == "" <==> fragments == []
  {
    if fragments != [] {
      assert fragments[0] in fragments;
    }
  }

  lemma AddOne(joined: seq<string>, f: string)
    requires "" !in joined
    ensures AddFragment(Join(joined), f) == Join(joined + NonEmpty([f]))
  {
    JoinIsEmptyIff(joined);
    assert [f][1..] == [];
    if f == "" {
      assert joined + [] == joined;
    } else {
      assert NonEmpty([f]) == [f];
      if joined == [] {
        assert joined + [f] == [f];
        assert "" + "" + f == f;
      } else {
        JoinMore(joined, f);
      }
    }
  }

  /** Adding fragments to a text one by one gives the join of those, the text included, that are not empty. */
  lemma {:induction false} FragmentsAreJoined(s: string, fragments: seq<string>)
    ensures AddFragments(s, fragments) == Join(NonEmpty([s] + fragments))
  {
    hide Join, NonEmpty, AddFragment;
    if fragments == [] {
      assert [s] + fragments == [s];
      JoinAlone(s);
    } else {
      var n := |fragments| - 1;
      var most, f := [s] + fragments[..n], fragments[n];
      FragmentsAreJoined(s, fragments[..n]);
      assert most + [f] == [s] + fragments;
      NonEmptyConcat(most, [f]);
      AddOne(NonEmpty(most), f);
    }
  }

  lemma JoinAlone(s: string)
    ensures Join(NonEmpty([s])) == s
  {
    assert [s][1..] == [];
  }

  lemma FragmentsOnly(fragments: seq<string>)
    ensures AddFragments("", fragments) == Join(NonEmpty(fragments))
  {
    hide Join, AddFragments;
    FragmentsAreJoined("", fragments);
    assert ([""] + fragments)[1..] == fragments;
    assert [] + NonEmpty(fragments) == NonEmpty(fragments);
  }

  /** A join holds each fragment whole and one separator between every two neighbours: cut
      between any two fragments, it is a join, a separator and a join. */
  lemma {:induction false} JoinShape(fragments: seq<string>, k: nat)
    requires 0 < k < |fragments|
    ensures Join(fragments) == Join(fragments[..k]) + ", " + Join(fragments[k..])
    ensures Join(fragments[k..k+1]) == fragments[k]
  {
    var rest := fragments[1..];
    if k == 1 {
      assert fragments[..1] == [fragments[0]];
    } else {
      JoinShape(rest, k - 1);
      assert fragments[..k][1..] == rest[..k-1];
      assert fragments[k..] == rest[k-1..];
      var a, b := Join(rest[..k-1]), Join(rest[k-1..]);
      assert fragments[0] + ", " + (a + ", " + b) == (fragments[0] + ", " + a) + ", " + b;
    }
  }

  // The builders

  /** Every fragment was written. */
  predicate AllWritten(fragments: seq<Option<string>>) {
    forall i :: 0 <= i < |fragments| ==> fragments[i].Some?
  }

  function Written(fragments: seq<Option<string>>): (r: seq<string>)
    requires AllWritten(fragments)
    ensures |r| == |fragments| && forall i :: 0 <= i < |r| ==> r[i] == fragments[i].value
  {
    seq(|fragments|, i requires 0 <= i < |fragments| => fragments[i].value)
  }

  /** Fragments are C strings. */
  predicate Clean(fragments: seq<Option<string>>) {
    forall i :: 0 <= i < |fragments| ==> fragments[i].Some? ==> NUL !in fragments[i].value
  }

  /* Adds what `tmp` holds, if it holds anything, behind a separator if there is something to separate. */
  method AddResponse(output: array<char>, ghost s: string, tmp: array<char>, ghost f: string, plenty: bool)
    returns (r: array?<char>)
    requires Holds(output, s) && Holds(tmp, f) && output != tmp
    modifies output
    ensures plenty ==> r != null
    ensures r != null && r != output ==> fresh(r)
    ensures r != null ==> Holds(r, AddFragment(s, f))
  {
    r := output;
    if tmp[0] == NUL {
      return;
    }
    ghost var before := s;
    if output[0] != NUL {
      r := AppendJsonComma(output, s, plenty);
      if r == null {
        return;
      }
      before := s + ", ";
    }
    var n := Strlen(tmp, f);
    r := Append(r, before, tmp[..n], plenty);
  }

  method AppendResponseList(output: array<char>, ghost s: string, responses: seq<Option<string>>, plenty: bool)
    returns (r: array?<char>)
    requires Holds(output, s) && Clean(responses)
    modifies output
    ensures plenty && AllWritten(responses) ==> r != null
    ensures r != null && r != output ==> fresh(r)
    ensures r != null ==> AllWritten(responses) && Holds(r, AddFragments(s, Written(responses)))
  {
    hide AddFragment;
    r := output;
    var tmp := Allocate(CMD_RES_BUF_INIT_SIZE, plenty);
    if tmp == null {
      return null;
    }
    for i := 0 to |responses|
      invariant AllWritten(responses[..i]) && r != null && (r == output || fresh(r)) && r != tmp
      invariant fresh(tmp) && tmp.Length > 0
      invariant Holds(r, AddFragments(s, Written(responses[..i])))
    {
      tmp[0] := NUL;
      if responses[i].None? {
        return null;
      }
      var next := Append(tmp, "", responses[i].value, plenty);
      if next == null {
        return null;
      }
      tmp := next;
      assert "" + responses[i].value == responses[i].value;
      ghost var done := Written(responses[..i]);
      r := AddResponse(r, AddFragments(s, done), tmp, responses[i].value, plenty);
      if r == null {
        return;
      }
      assert Written(responses[..i+1])[..i] == done;
    }
    assert responses[..|responses|] == responses;
  }

  // The section of results

  predicate AllResultsWritten(results: seq<seq<Option<string>>>) {
    forall i :: 0 <= i < |results| ==> AllWritten(results[i])
  }

  /** One block for every result. */
  function Blocks(results: seq<seq<Option<string>>>): (r: seq<string>)
    requires AllResultsWritten(results)
    ensures |r| == |results|
    ensures forall i :: 0 <= i < |r| ==> r[i] == Braces("", Join(NonEmpty(Written(results[i])))) && r[i] != ""
  {
    seq(|results|, i requires 0 <= i < |results| => Braces("", Join(NonEmpty(Written(results[i])))))
  }

  lemma BlocksMore(results: seq<seq<Option<string>>>, i: nat)
    requires i < |results| && AllResultsWritten(results[..i]) && AllWritten(results[i])
    ensures AllResultsWritten(results[..i+1])
    ensures Join(Blocks(results[..i+1]))
         == More(Join(Blocks(results[..i])), Braces("", AddFragments("", Written(results[i]))))
  {
    hide Join, NonEmpty, AddFragments, Written, Braces;
    var before, after := Blocks(results[..i]), Blocks(results[..i+1]);
    FragmentsOnly(Written(results[i]));
    var block := Braces("", AddFragments("", Written(results[i])));
    assert after == before + [block];
    JoinOne(before, block);
  }

  lemma JoinOne(fragments: seq<string>, f: string)
    requires "" !in fragments && f != ""
    ensures Join(fragments + [f]) == More(Join(fragments), f)
  {
    AddOne(fragments, f);
    assert [f][1..] == [];
    assert NonEmpty([f]) == [f];
  }

  method AppendCommandResults(name: string, output: array<char>, ghost s: string, results: seq<seq<Option<string>>>,
                              plenty: bool)
    returns (r: array?<char>)
    requires Holds(output, s) && NUL !in name && forall i :: 0 <= i < |results| ==> Clean(results[i])
    modifies output
    ensures plenty && AllResultsWritten(results) ==> r != null
    ensures r != null && r != output ==> fresh(r)
    ensures r != null ==> AllResultsWritten(results) && Holds(r, More(s, Member(name, Brackets(Join(Blocks(results))))))
  {
    hide AddFragments, Join, Member, Brackets, Braces, More;
    var tmp1 := Allocate(CMD_RES_BUF_INIT_SIZE, plenty);
    if tmp1 == null {
      return null;
    }
    var tmp2 := Allocate(CMD_RES_BUF_INIT_SIZE, plenty);
    if tmp2 == null {
      return null;
    }
    JoinOfNone();
    for i := 0 to |results|
      invariant fresh(tmp1) && fresh(tmp2) && tmp1 != tmp2 && tmp1.Length > 0
      invariant AllResultsWritten(results[..i]) && Holds(output, s) && Holds(tmp2, Join(Blocks(results[..i])))
    {
      tmp1[0] := NUL;
      var next1 := AppendResponseList(tmp1, "", results[i], plenty);
      if next1 == null {
        return null;
      }
      tmp1 := next1;
      ghost var entry := AddFragments("", Written(results[i]));
      var n := Strlen(tmp1, entry);
      var next2 := AppendJsonBlock(tmp2, Join(Blocks(results[..i])), "", tmp1[..n], plenty);
      if next2 == null {
        return null;
      }
      tmp2 := next2;
      BlocksMore(results, i);
    }
    assert results[..|results|] == results;
    var n := Strlen(tmp2, Join(Blocks(results)));
    r := AppendJsonArray(output, s, name, tmp2[..n], plenty);
  }

  lemma JoinOfNone()
    ensures Join(Blocks([])) == ""
  {
  }
}
