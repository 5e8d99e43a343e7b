/**
 * Text as the commands and replies of SPP use it: blank-separated fields,
 * decimal numbers, and the two ways of cutting a line that the command line
 * tool (`str.split(' ')`) and the primary process (`strtok`) use.
 */
module Text {

  datatype Option<T> = None | Some(value: T)

  // Fields

  /** `str.split(' ')`: every blank ends a field, so fields may be empty. */
  function Split(s: string): (fields: seq<string>)
    ensures fields != []
    ensures forall i :: 0 <= i < |fields| ==> ' ' !in fields[i]
  {
    if s == "" then [""] else Push(s[0], Split(s[1..]))
  }

  /** Puts one character in front of a line of fields. */
  function Push(c: char, fields: seq<string>): (r: seq<string>)
    requires fields != []
    ensures r != []
    ensures (forall i :: 0 <= i < |fields| ==> ' ' !in fields[i]) ==> forall i :: 0 <= i < |r| ==> ' ' !in r[i]
  {
    if c == ' ' then [""] + fields else [[c] + fields[0]] + fields[1..]
  }

  lemma PushConcat(c: char, a: seq<string>, b: seq<string>)
    requires a != []
    ensures Push(c, a + b) == Push(c, a) + b
  {
    if c != ' ' {
      assert (a + b)[1..] == a[1..] + b;
    }
  }

  lemma SentenceOfPush(c: char, fields: seq<string>)
    requires fields != []
    ensures Sentence(Push(c, fields)) == [c] + Sentence(fields)
  {
    var r := Push(c, fields);
    if c == ' ' {
      assert r[1..] == fields;
    } else {
      assert r[1..] == fields[1..];
      assert [c] + (fields[0] + " " + Sentence(fields[1..])) == [c] + fields[0] + " " + Sentence(fields[1..]);
    }
  }

  /** Every field followed by one blank. */
  function Sentence(fields: seq<string>): string {
    if fields == [] then "" else fields[0] + " " + Sentence(fields[1..])
  }

  /** `strtok(s, " ")`: the fields that are not empty. */
  function Words(s: string): seq<string> {
    NonEmpty(Split(s))
  }

  function NonEmpty(fields: seq<string>): (words: seq<string>)
    ensures "" !in words
    ensures "" !in fields ==> words == fields
  {
    if fields == [] then []
    else (if fields[0] == "" then [] else [fields[0]]) + NonEmpty(fields[1..])
  }

  lemma {:induction false} SplitWord(w: string)
    requires ' ' !in w
    ensures Split(w) == [w]
  {
    if w != "" {
      assert forall c :: c in w[1..] ==> c in w;
      SplitWord(w[1..]);
      assert [w[0]] + w[1..] == w;
    }
  }

  lemma {:induction false} SplitAtBlank(a: string, b: string)
    ensures Split(a + " " + b) == Split(a) + Split(b)
  {
    var s := a + " " + b;
    if a == "" {
      assert s[1..] == b;
      assert Split(a) + Split(b) == [""] + Split(b);
    } else {
      assert s[1..] == a[1..] + " " + b;
      hide Push;
      SplitAtBlank(a[1..], b);
      PushConcat(s[0], Split(a[1..]), Split(b));
    }
  }

  lemma SplitWordFirst(w: string, b: string)
    requires ' ' !in w
    ensures Split(w + " " + b) == [w] + Split(b)
  {
    hide Split;
    SplitAtBlank(w, b);
    SplitWord(w);
  }

  lemma {:induction false} SentenceOfSplit(s: string)
    ensures Sentence(Split(s)) == s + " "
  {
    if s == "" {
      assert Split(s)[1..] == [];
    } else {
      hide Push;
      SentenceOfSplit(s[1..]);
      SentenceOfPush(s[0], Split(s[1..]));
      assert [s[0]] + (s[1..] + " ") == s + " ";
    }
  }

  lemma {:induction false} NonEmptyConcat(a: seq<string>, b: seq<string>)
    ensures NonEmpty(a + b) == NonEmpty(a) + NonEmpty(b)
  {
    if a == [] {
      assert a + b == b;
    } else {
      assert (a + b)[1..] == a[1..] + b;
      NonEmptyConcat(a[1..], b);
    }
  }

  // White space

  /** `isspace` of C. */
  predicate IsSpace(c: char) {
    c == ' ' || '\t' <= c <= '\r'
  }

  /** `str.isspace` of Python, which `str.rstrip` goes by. */
  predicate IsUnicodeSpace(c: char) {
    || IsSpace(c) || '\U{1c}' <= c <= '\U{1f}' || c == '\U{85}' || c == '\U{a0}' || c == '\U{1680}'
    || '\U{2000}' <= c <= '\U{200a}' || c == '\U{2028}' || c == '\U{2029}' || c == '\U{202f}'
    || c == '\U{205f}' || c == '\U{3000}'
  }

  /** `str.rstrip()`. */
  function Rstrip(s: string): (r: string)
    ensures r <= s
    ensures r != "" ==> !IsUnicodeSpace(r[|r|-1])
    ensures forall i :: |r| <= i < |s| ==> IsUnicodeSpace(s[i])
  {
    if s != "" && IsUnicodeSpace(s[|s|-1]) then Rstrip(s[..|s|-1]) else s
  }

  lemma RstripBlank(s: string)
    ensures Rstrip(s + " ") == Rstrip(s)
  {
    assert (s + " ")[..|s + " "|-1] == s;
  }

  // Numbers

  /** What a character is worth as a digit; 36 if it is none. */
  function DigitOf(c: char): (v: nat)
    ensures v <= 36 && (v < 10 <==> IsDigit(c))
  {
    if '0' <= c <= '9' then c as int - '0' as int
    else if 'a' <= c <= 'z' then c as int - 'a' as int + 10
    else if 'A' <= c <= 'Z' then c as int - 'A' as int + 10
    else 36
  }

  predicate DigitsIn(s: string, base: nat) {
    forall i :: 0 <= i < |s| ==> DigitOf(s[i]) < base
  }

  function ValueIn(s: string, base: nat): nat {
    if s == "" then 0 else ValueIn(s[..|s|-1], base) * base + DigitOf(s[|s|-1])
  }

  /** A digit up to 15, with capital letters. */
  function Digit(v: nat): (c: char)
    requires v < 16
    ensures DigitOf(c) == v
  {
    if v < 10 then ('0' as int + v) as char else ('A' as int + (v - 10)) as char
  }

  /** The quotient and the remainder by 8, 10 or 16. */
  function Divide(n: nat, base: nat): (r: (nat, nat))
    requires base == 8 || base == 10 || base == 16
    ensures r.1 < base && (n < base ==> r == (0, n)) && (n >= base ==> 0 < r.0 < n)
  {
    if base == 8 then (n / 8, n % 8) else if base == 10 then (n / 10, n % 10) else (n / 16, n % 16)
  }

  lemma DivideBack(n: nat, base: nat)
    requires base == 8 || base == 10 || base == 16
    ensures Divide(n, base).0 * base + Divide(n, base).1 == n
  {
  }

  function Numeral(n: nat, base: nat): (s: string)
    requires base == 8 || base == 10 || base == 16
    ensures s != "" && DigitsIn(s, base)
  {
    var (q, r) := Divide(n, base);
    if q == 0 then [Digit(r)] else Numeral(q, base) + [Digit(r)]
  }

  lemma {:induction false} ValueOfNumeral(n: nat, base: nat)
    requires base == 8 || base == 10 || base == 16
    ensures ValueIn(Numeral(n, base), base) == n
  {
    DivideBack(n, base);
    hide Divide;
    var s := Numeral(n, base);
    var (q, _) := Divide(n, base);
    if q == 0 {
      assert s[..|s|-1] == "";
    } else {
      ValueOfNumeral(q, base);
      assert s[..|s|-1] == Numeral(q, base);
    }
  }

  /* A numeral starts with a zero only if it is zero. */
  lemma {:induction false} NoLeadingZero(n: nat, base: nat)
    requires base == 8 || base == 10 || base == 16
    ensures Numeral(n, base)[0] == '0' <==> n == 0
  {
    hide Divide;
    var (q, _) := Divide(n, base);
    if q != 0 {
      NoLeadingZero(q, base);
      assert Numeral(n, base)[0] == Numeral(q, base)[0];
    }
  }

  predicate IsDigit(c: char) {
    '0' <= c <= '9'
  }

  predicate AllDigits(s: string) {
    forall i :: 0 <= i < |s| ==> IsDigit(s[i])
  }

  function Digits(n: nat): (s: string)
    ensures s != "" && AllDigits(s)
  {
    Numeral(n, 10)
  }

  /** `str(n)`. */
  function Decimal(n: int): (s: string)
    ensures s != "" && ' ' !in s
  {
    if n < 0 then "-" + Digits(-n) else Digits(n)
  }

  /** `int(s)` on sign and digits. */
  function ParseInt(s: string): Option<int> {
    if s == "" then None
    else
      var body := if s[0] == '-' || s[0] == '+' then s[1..] else s;
      if body == "" || !AllDigits(body) then None
      else
        var v: int := ValueIn(body, 10);
        Some(if s[0] == '-' then -v else v)
  }

  lemma ParseOfDecimal(n: int)
    ensures ParseInt(Decimal(n)) == Some(n)
  {
    var m := if n < 0 then -n else n;
    var s := Digits(m);
    ValueOfNumeral(m, 10);
    assert IsDigit(s[0]) && ValueIn(s, 10) == m;
    hide Numeral, ValueIn, Digits;
    if n < 0 {
      assert Decimal(n) == "-" + s && Decimal(n)[1..] == s;
    }
  }
}
