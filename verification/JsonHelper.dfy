/**
 * JSON text in string buffers: src/shared/secondary/json_helper.c:11-136 and
 * the response builders of
 * src/shared/secondary/spp_worker_th/cmd_res_formatter.c:363-477.
 *
 * Every helper first makes room by appending a computed number of bytes, whose
 * values do not matter, and then prints over them. `Sprintf` demands the room.
 */
module JsonHelper {
  import opened StringBuffer
  import Text

  const JSON_APPEND_LEN: nat := 16

  /** Prints behind the text of a buffer that has room for the text and a terminator. */
  method Sprintf(buf: array<char>, ghost s: string, at: nat, text: string)
    requires at == |s| && NUL !in s && NUL !in text && at + |text| < buf.Length && buf[..at] == s
    modifies buf
    ensures Holds(buf, s + text)
  {
    Copy(buf, at, text + [NUL]);
    assert buf[at..at+|text|+1] == text + [NUL];
    assert buf[..at+|text|] == buf[..at] + buf[at..at+|text|+1][..|text|];
    assert buf[at+|text|] == buf[at..at+|text|+1][|text|];
  }

  // The texts that are printed

  /** A comma and a blank when there is text to separate from. */
  function Comma(s: string): string {
    if s == "" then "" else ", "
  }

  function Quoted(s: string): string {
    "\"" + s + "\""
  }

  function Member(name: string, value: string): string {
    Quoted(name) + ": " + value
  }

  function Brackets(val: string): string {
    "[ " + val + " ]"
  }

  function Braces(name: string, val: string): string {
    var block := "{ " + val + " }";
    if name == "" then block else Member(name, block)
  }

  /** Text with one more entry. */
  function More(s: string, entry: string): (r: string)
    ensures NUL !in s && NUL !in entry ==> NUL !in r
  {
    s + Comma(s) + entry
  }

  lemma {:induction false} DigitsLength(n: nat, k: nat, bound: nat)
    requires k > 0 && n < bound && Powers(k, bound)
    ensures |Text.Digits(n)| <= k
    decreases k
  {
    if n >= 10 {
      DigitsLength(n / 10, k - 1, bound / 10);
    }
  }

  /** `bound` is the power of ten with `k` zeros. */
  predicate Powers(k: nat, bound: nat) {
    if k == 0 then bound == 1 else bound % 10 == 0 && Powers(k - 1, bound / 10)
  }

  lemma NumberLength(v: int)
    requires -0x8000_0000 <= v < 0x1_0000_0000
    ensures |Text.Decimal(v)| <= 11
  {
    var n := if v < 0 then -v else v;
    TenDigits();
    DigitsLength(n, 10, 10_000_000_000);
  }

  lemma TenDigits()
    ensures Powers(10, 10_000_000_000)
  {
    assert Powers(0, 1);
    assert Powers(1, 10);
    assert Powers(2, 100);
    assert Powers(3, 1000);
    assert Powers(4, 10_000);
    assert Powers(5, 100_000);
    assert Powers(6, 1_000_000);
    assert Powers(7, 10_000_000);
    assert Powers(8, 100_000_000);
    assert Powers(9, 1_000_000_000);
  }

  // The helpers

  /** Bytes of which nothing is known but their number. */
  method SomeBytes(n: nat) returns (bytes: seq<char>)
    ensures |bytes| == n
  {
    bytes := seq(n, _ => NUL);
  }

  /* Makes room for `n` bytes, then prints an entry over them. */
  method AppendEntry(output: array<char>, ghost s: string, n: nat, entry: string, plenty: bool)
    returns (r: array?<char>)
    requires Holds(output, s) && NUL !in entry
    requires |Comma(s)| + |entry| <= n
    modifies output
    ensures plenty ==> r != null
    ensures r != null && r != output ==> fresh(r)
    ensures r != null ==> Holds(r, More(s, entry))
  {
    var len := Strlen(output, s);
    var room := SomeBytes(n);
    r := AppendBytes(output, s, room, plenty);
    if r == null {
      return;
    }
    assert r[..len] == r[..len+|room|][..len] == s;
    var comma := if len != 0 then ", " else "";
    Sprintf(r, s, len, comma + entry);
    assert s + (comma + entry) == More(s, entry);
  }

  method AppendJsonComma(output: array<char>, ghost s: string, plenty: bool) returns (r: array?<char>)
    requires Holds(output, s)
    modifies output
    ensures plenty ==> r != null
    ensures r != null && r != output ==> fresh(r)
    ensures r != null ==> Holds(r, s + ", ")
  {
    r := Append(output, s, ", ", plenty);
  }

  /* `append_json_uint_value` and `append_json_int_value`: the value is a 32-bit number. */
  method AppendJsonNumber(output: array<char>, ghost s: string, name: string, value: int, plenty: bool)
    returns (r: array?<char>)
    requires Holds(output, s) && NUL !in name
    requires -0x8000_0000 <= value < 0x1_0000_0000
    modifies output
    ensures plenty ==> r != null
    ensures r != null && r != output ==> fresh(r)
    ensures r != null ==> Holds(r, More(s, Member(name, Text.Decimal(value))))
  {
    NumberLength(value);
    DecimalHasNoNul(value);
    hide Text.Decimal;
    r := AppendEntry(output, s, |name| + JSON_APPEND_LEN * 2, Member(name, Text.Decimal(value)), plenty);
  }

  lemma DecimalHasNoNul(v: int)
    ensures NUL !in Text.Decimal(v)
  {
    var n := if v < 0 then -v else v;
    assert Text.AllDigits(Text.Digits(n));
    assert forall c :: c in Text.Digits(n) ==> Text.IsDigit(c);
  }

  method AppendJsonStr(output: array<char>, ghost s: string, name: string, val: string, plenty: bool)
    returns (r: array?<char>)
    requires Holds(output, s) && NUL !in name && NUL !in val
    modifies output
    ensures plenty ==> r != null
    ensures r != null && r != output ==> fresh(r)
    ensures r != null ==> Holds(r, More(s, Member(name, Quoted(val))))
  {
    r := AppendEntry(output, s, |name| + |val| + JSON_APPEND_LEN, Member(name, Quoted(val)), plenty);
  }

  method AppendJsonArray(output: array<char>, ghost s: string, name: string, val: string, plenty: bool)
    returns (r: array?<char>)
    requires Holds(output, s) && NUL !in name && NUL !in val
    modifies output
    ensures plenty ==> r != null
    ensures r != null && r != output ==> fresh(r)
    ensures r != null ==> Holds(r, More(s, Member(name, Brackets(val))))
  {
    r := AppendEntry(output, s, |name| + |val| + JSON_APPEND_LEN, Member(name, Brackets(val)), plenty);
  }

  method AppendJsonBlock(output: array<char>, ghost s: string, name: string, val: string, plenty: bool)
    returns (r: array?<char>)
    requires Holds(output, s) && NUL !in name && NUL !in val
    modifies output
    ensures plenty ==> r != null
    ensures r != null && r != output ==> fresh(r)
    ensures r != null ==> Holds(r, More(s, Braces(name, val)))
  {
    r := AppendEntry(output, s, |name| + |val| + JSON_APPEND_LEN, Braces(name, val), plenty);
  }
}
