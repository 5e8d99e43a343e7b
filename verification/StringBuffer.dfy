/**
 * The growable string buffer: src/shared/secondary/string_buffer.c:23-95.
 *
 * A buffer is an array whose length is the capacity stored in front of it. It
 * holds the text up to its first terminator. An allocation may fail unless
 * memory is plenty, and then an operation that needs one gives no buffer.
 */
module StringBuffer {

  const NUL := '\0'

  /** The buffer holds the text `s`. */
  ghost predicate Holds(buf: array<char>, s: string)
    reads buf
  {
    NUL !in s && |s| < buf.Length && buf[..|s|] == s && buf[|s|] == NUL
  }

  /** The text a buffer holds is what stands before its first terminator. */
  lemma HoldsUpToNul(buf: array<char>, s: string)
    requires Holds(buf, s)
    ensures |s| < buf.Length && buf[|s|] == NUL
    ensures forall i :: 0 <= i < |s| ==> buf[i] == s[i] && buf[i] != NUL
  {
    forall i | 0 <= i < |s| ensures buf[i] == s[i] && buf[i] != NUL {
      assert buf[..|s|][i] == buf[i] && s[i] in s;
    }
  }

  method Allocate(capacity: nat, plenty: bool) returns (buf: array?<char>)
    ensures plenty ==> buf != null
    ensures buf != null ==> fresh(buf) && buf.Length == capacity && (capacity > 0 ==> Holds(buf, ""))
  {
    if !plenty {
      if * {
        return null;
      }
    }
    buf := new char[capacity](_ => NUL);
  }

  method Strlen(buf: array<char>, ghost s: string) returns (n: nat)
    requires Holds(buf, s)
    ensures n == |s|
  {
    n := 0;
    while buf[n] != NUL
      invariant n <= |s|
      decreases |s| - n
    {
      assert n < |s| ==> buf[n] == buf[..|s|][n] == s[n];
      n := n + 1;
    }
  }

  /** `memcpy`, from a sequence of bytes. */
  method Copy(buf: array<char>, at: nat, bytes: seq<char>)
    requires at + |bytes| <= buf.Length
    modifies buf
    ensures buf[..at] == old(buf[..at]) && buf[at..at+|bytes|] == bytes
    ensures buf[at+|bytes|..] == old(buf[at+|bytes|..])
  {
    forall i | at <= i < at + |bytes| {
      buf[i] := bytes[i - at];
    }
  }

  /** A new buffer, of twice the capacity or more, that holds the same text and has room for the length required. */
  method Reallocate(buf: array<char>, ghost s: string, required: nat, plenty: bool) returns (r: array?<char>)
    requires Holds(buf, s)
    ensures plenty ==> r != null
    ensures r != null ==> fresh(r) && Holds(r, s) && r.Length >= 2 * buf.Length && r.Length > required
  {
    var capacity := buf.Length * 2;
    while capacity <= required
      invariant capacity >= 2 * buf.Length
      decreases required - capacity
    {
      capacity := capacity * 2;
    }
    r := Allocate(capacity, plenty);
    if r == null {
      return;
    }
    var n := Strlen(buf, s);
    Copy(r, 0, buf[..n] + [NUL]);
    assert r[0..n+1] == s + [NUL];
    assert r[..n] == r[0..n+1][..n];
    assert r[n] == r[0..n+1][n];
  }

  /**
   * Appends bytes. There is always room for them and for a terminator, in the
   * buffer itself when it has the room and in a new one otherwise.
   */
  method AppendBytes(buf: array<char>, ghost s: string, bytes: seq<char>, plenty: bool) returns (r: array?<char>)
    requires Holds(buf, s)
    modifies buf
    ensures plenty ==> r != null
    ensures |s| + |bytes| < buf.Length ==> r == buf
    ensures r != null && r != buf ==> fresh(r)
    ensures r != null ==> |s| + |bytes| < r.Length && r[..|s|+|bytes|] == s + bytes && r[|s|+|bytes|] == NUL
  {
    var n := Strlen(buf, s);
    r := buf;
    if n + |bytes| >= buf.Length {
      r := Reallocate(buf, s, n + |bytes|, plenty);
      if r == null {
        return;
      }
    }
    Copy(r, n, bytes + [NUL]);
    assert r[n..n+|bytes|+1] == bytes + [NUL];
    assert r[..n+|bytes|] == r[..n] + r[n..n+|bytes|+1][..|bytes|];
    assert r[n+|bytes|] == r[n..n+|bytes|+1][|bytes|];
  }

  /** Appending text is concatenation. */
  method Append(buf: array<char>, ghost s: string, text: string, plenty: bool) returns (r: array?<char>)
    requires Holds(buf, s) && NUL !in text
    modifies buf
    ensures plenty ==> r != null
    ensures |s| + |text| < buf.Length ==> r == buf
    ensures r != null && r != buf ==> fresh(r)
    ensures r != null ==> Holds(r, s + text)
  {
    r := AppendBytes(buf, s, text, plenty);
  }

  method RemoveFront(buf: array<char>, ghost s: string, count: nat)
    requires Holds(buf, s) && count <= |s|
    modifies buf
    ensures Holds(buf, s[count..])
  {
    var n := Strlen(buf, s);
    if n == count {
      buf[0] := NUL;
    } else {
      var rest := buf[count..n+1];
      assert rest == s[count..] + [NUL] by {
        assert buf[..n+1] == s + [NUL];
        assert rest == buf[..n+1][count..];
      }
      Copy(buf, 0, rest);
      assert buf[0..|rest|][..n-count] == s[count..];
      assert buf[..n-count] == buf[0..|rest|][..n-count];
      assert buf[n-count] == buf[0..|rest|][n-count];
    }
  }
}
