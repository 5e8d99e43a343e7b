/** The mask made from a prefix length: src/primary/flow/common.c:401-450. */
module FlowMask {

  /** Bit `j` of a byte, the most significant bit being bit 0. */
  function BitAt(j: nat): bv8
    requires j <= 8
  {
    match j
    case 0 => 0x80 case 1 => 0x40 case 2 => 0x20 case 3 => 0x10
    case 4 => 0x08 case 5 => 0x04 case 6 => 0x02 case 7 => 0x01
    case _ => 0x00
  }

  predicate IsSet(b: bv8, j: nat)
    requires j < 8
  {
    b & BitAt(j) != 0
  }

  /** A byte that starts with `n` ones. */
  function Ones(n: nat): bv8
    requires n <= 8
  {
    match n
    case 0 => 0x00 case 1 => 0x80 case 2 => 0xc0 case 3 => 0xe0 case 4 => 0xf0
    case 5 => 0xf8 case 6 => 0xfc case 7 => 0xfe case _ => 0xff
  }

  lemma OnesMore(n: nat)
    requires n < 8
    ensures Ones(n) | BitAt(n) == Ones(n + 1)
    ensures BitAt(n) >> 1 == BitAt(n + 1)
  {
  }

  lemma OnesBits(n: nat, j: nat)
    requires n <= 8 && j < 8
    ensures IsSet(Ones(n), j) <==> j < n
  {
    match n
    case 0 => case 1 => case 2 => case 3 => case 4 => case 5 => case 6 => case 7 => case _ =>
  }

  /** How many of the first `prefix` bits fall into byte `i`. */
  function Share(prefix: nat, i: nat): (n: nat)
    ensures n <= 8
  {
    if prefix <= 8 * i then 0 else if prefix <= 8 * i + 8 then prefix - 8 * i else 8
  }

  /* The inner loop: one byte takes up to eight of the bits that are left. */
  method FillByte(target: array<bv8>, at: nat, left: nat) returns (rest: nat)
    requires at < target.Length && target[at] == 0
    modifies target
    ensures target[at] == Ones(if left <= 8 then left else 8) && rest == if left <= 8 then 0 else left - 8
    ensures forall m :: 0 <= m < target.Length && m != at ==> target[m] == old(target[m])
  {
    hide Ones, BitAt;
    var bitmask: bv8 := 0x80;
    rest := left;
    FirstBit();
    var j := 0;
    while j < 8 && rest > 0
      invariant 0 <= j <= 8 && rest + j == left
      invariant target[at] == Ones(j) && bitmask == BitAt(j)
      invariant forall m :: 0 <= m < target.Length && m != at ==> target[m] == old(target[m])
    {
      OnesMore(j);
      target[at] := target[at] | bitmask;
      bitmask := bitmask >> 1;
      rest := rest - 1;
      j := j + 1;
    }
  }

  lemma FirstBit()
    ensures BitAt(0) == 0x80 && Ones(0) == 0
  {
  }

  /** Sets a field of a mask, or refuses a prefix longer than the field. */
  method PrefixMask(mask: array<bv8>, offset: nat, size: nat, prefix: nat) returns (ok: bool)
    requires offset + size <= mask.Length
    modifies mask
    ensures ok <==> prefix <= size * 8
    ensures ok ==> forall m :: offset <= m < offset + size ==> mask[m] == Ones(Share(prefix, m - offset))
    ensures forall m :: 0 <= m < mask.Length && (!ok || m < offset || offset + size <= m) ==> mask[m] == old(mask[m])
  {
    hide Ones;
    if prefix > size * 8 {
      return false;
    }
    FirstBit();
    forall m | offset <= m < offset + size {
      mask[m] := 0;
    }
    var i, left := 0, prefix;
    while i < size && left > 0
      invariant 0 <= i <= size && left == if prefix <= 8 * i then 0 else prefix - 8 * i
      invariant forall m :: offset <= m < offset + i ==> mask[m] == Ones(Share(prefix, m - offset))
      invariant forall m :: offset + i <= m < offset + size ==> mask[m] == 0
      invariant forall m :: 0 <= m < mask.Length && (m < offset || offset + size <= m) ==> mask[m] == old(mask[m])
    {
      left := FillByte(mask, offset + i, left);
      i := i + 1;
    }
    ok := true;
  }

  /** Bit `k` of the field, counted across its bytes from the most significant bit, is set exactly when k < prefix. */
  lemma PrefixBits(prefix: nat, k: nat)
    ensures IsSet(Ones(Share(prefix, k / 8)), k % 8) <==> k < prefix
  {
    OnesBits(Share(prefix, k / 8), k % 8);
  }
}
