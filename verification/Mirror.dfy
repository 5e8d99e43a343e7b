/** Deep copy of a packet by the mirror: a chain of mbuf segments is copied segment by
segment from a pool that may run dry at any point. */
module Mirror {
  import opened Sequences

  /** What the mirror copies of a segment: its header fields and its data. */
  datatype Contents = Contents(port: nat, pktLen: nat, nbSegs: nat, vlanTci: nat, data: seq<bv8>)

  class Mbuf {
    var contents: Contents
    var next: Mbuf?

    constructor (contents: Contents)
      ensures this.contents == contents && next == null
    {
      this.contents := contents;
      next := null;
    }
  }

  /** Mbufs of the mirror pool that are handed out, and how often none was to be had. */
  class Pool {
    ghost var live: set<Mbuf>
    ghost var refusals: nat

    constructor ()
      ensures live == {} && refusals == 0
    {
      live, refusals := {}, 0;
    }

    /* `rte_pktmbuf_alloc`, which may fail; the header is left to the caller. */
    method Alloc() returns (m: Mbuf?)
      modifies this
      ensures refusals == old(refusals) + if m == null then 1 else 0
      ensures m == null ==> live == old(live)
      ensures m != null ==> fresh(m) && m !in old(live) && m.next == null && live == old(live) + {m}
    {
      var ok: bool := *;
      if !ok {
        refusals := refusals + 1;
        return null;
      }
      m := new Mbuf(Contents(0, 0, 0, 0, []));
      live := live + {m};
    }

    /* `rte_pktmbuf_free` on a chain. */
    method FreeChain(m: Mbuf?, ghost chain: seq<Mbuf>)
      requires Chain(m, chain)
      modifies `live
      ensures live == old(live) - set b | b in chain
    {
      var p := m;
      ghost var k := 0;
      while p != null
        invariant 0 <= k <= |chain| && p == At(chain, k) && Chain(m, chain)
        invariant live == old(live) - set b | b in chain[..k]
        decreases |chain| - k
      {
        live := live - {p};
        assert chain[..k+1] == chain[..k] + [p];
        p := p.next;
        k := k + 1;
      }
      assert chain[..k] == chain;
    }
  }

  ghost function At(chain: seq<Mbuf>, k: nat): Mbuf? {
    if k < |chain| then chain[k] else null
  }

  /** `m` is the head of the chain of the given segments. */
  ghost predicate Chain(m: Mbuf?, chain: seq<Mbuf>)
    reads chain
  {
    m == At(chain, 0) && forall i :: 0 <= i < |chain| ==> chain[i].next == At(chain, i + 1)
  }

  /** A chain of mbufs that the pool has handed out since it held `before`. */
  ghost predicate CopyOf(copy: Mbuf?, copies: seq<Mbuf>, chain: seq<Mbuf>, pool: Pool, before: set<Mbuf>)
    reads pool, copies, chain
  {
    && Chain(copy, copies) && Distinct(copies) && |copies| <= |chain|
    && (forall i :: 0 <= i < |copies| ==> copies[i].contents == chain[i].contents)
    && before !! (set b | b in copies) && pool.live == before + set b | b in copies
  }

  /* `*mirror_mbufs = copy_mbuf`, through the pointer to the last link. */
  method Append(copy: Mbuf?, tail: Mbuf?, m: Mbuf, ghost copies: seq<Mbuf>) returns (head: Mbuf)
    requires Chain(copy, copies) && Distinct(copies) && m !in copies && m.next == null
    requires tail == if copies == [] then null else copies[|copies|-1]
    modifies (if tail == null then {} else {tail})`next
    ensures Chain(head, copies + [m])
  {
    if tail == null {
      head := m;
    } else {
      head := copy;
      tail.next := m;
    }
  }

  /* One turn of the copy loop. */
  method CopySegment(p: Mbuf, pool: Pool, copy: Mbuf?, tail: Mbuf?,
                     ghost copies: seq<Mbuf>, ghost chain: seq<Mbuf>, ghost before: set<Mbuf>)
    returns (m: Mbuf?, head: Mbuf?)
    requires CopyOf(copy, copies, chain, pool, before) && |copies| < |chain| && p == chain[|copies|]
    requires tail == if copies == [] then null else copies[|copies|-1]
    modifies pool, if tail == null then {} else {tail}
    ensures pool.refusals == old(pool.refusals) + if m == null then 1 else 0
    ensures m == null ==> head == copy && CopyOf(copy, copies, chain, pool, before)
    ensures m != null ==> fresh(m) && CopyOf(head, copies + [m], chain, pool, before)
  {
    hide Chain, Distinct;
    head := copy;
    m := pool.Alloc();
    if m == null {
      return;
    }
    m.contents := p.contents;
    head := Append(copy, tail, m, copies);
    SnocFacts(copies, m);
  }

  lemma SnocFacts(copies: seq<Mbuf>, m: Mbuf)
    requires Distinct(copies) && m !in copies
    ensures Distinct(copies + [m]) && (set b | b in copies + [m]) == (set b | b in copies) + {m}
  {
  }

  /* What is left of a copy when a segment cannot be had: nothing. */
  method GiveBack(pool: Pool, copy: Mbuf?, ghost copies: seq<Mbuf>, ghost chain: seq<Mbuf>, ghost before: set<Mbuf>)
    requires CopyOf(copy, copies, chain, pool, before)
    modifies pool`live
    ensures CopyOf(null, [], chain, pool, before)
  {
    pool.FreeChain(copy, copies);
  }

  lemma CopyHead(copy: Mbuf?, copies: seq<Mbuf>, chain: seq<Mbuf>, pool: Pool, before: set<Mbuf>)
    requires CopyOf(copy, copies, chain, pool, before)
    ensures copy == At(copies, 0) && |copies| <= |chain|
  {
  }

  lemma ChainNext(m: Mbuf?, chain: seq<Mbuf>, k: nat)
    requires Chain(m, chain) && k < |chain|
    ensures chain[k].next == At(chain, k + 1)
  {
  }

  /** Where the copy loop is: `p` is the segment to copy next and `tail` the last copy made. */
  ghost predicate Progress(org: Mbuf, p: Mbuf?, tail: Mbuf?, copy: Mbuf?, copies: seq<Mbuf>, chain: seq<Mbuf>,
                           pool: Pool, before: set<Mbuf>)
    reads pool, copies, chain
  {
    && Chain(org, chain) && CopyOf(copy, copies, chain, pool, before)
    && p == At(chain, |copies|) && (tail == if copies == [] then null else copies[|copies|-1])
    && forall i :: 0 <= i < |copies| ==> copies[i] !in chain
  }

  /* One turn of the loop, with the step to the next segment. */
  method CopyNext(org: Mbuf, p: Mbuf, pool: Pool, copy: Mbuf?, tail: Mbuf?,
                  ghost copies: seq<Mbuf>, ghost chain: seq<Mbuf>, ghost before: set<Mbuf>)
    returns (m: Mbuf?, head: Mbuf?, next: Mbuf?)
    requires Progress(org, p, tail, copy, copies, chain, pool, before)
    modifies pool, if tail == null then {} else {tail}
    ensures pool.refusals == old(pool.refusals) + if m == null then 1 else 0
    ensures m == null ==> next == p && Progress(org, p, tail, head, copies, chain, pool, before)
    ensures m != null ==> fresh(m) && Progress(org, next, m, head, copies + [m], chain, pool, before)
  {
    ChainNext(org, chain, |copies|);
    next := p.next;
    hide Chain, CopyOf;
    m, head := CopySegment(p, pool, copy, tail, copies, chain, before);
    if m == null {
      next := p;
    }
  }

  /* The copy loop, up to the last segment or the first that cannot be had. */
  method CopyChain(org: Mbuf, pool: Pool, ghost chain: seq<Mbuf>)
    returns (copy: Mbuf?, ghost copies: seq<Mbuf>, done: bool)
    requires Chain(org, chain)
    modifies pool
    ensures Chain(org, chain) && CopyOf(copy, copies, chain, pool, old(pool.live))
    ensures done ==> |copies| == |chain| && pool.refusals == old(pool.refusals)
    ensures !done ==> pool.refusals > old(pool.refusals)
    ensures forall i :: 0 <= i < |copies| ==> fresh(copies[i]) && copies[i] !in chain
  {
    copy, copies, done := null, [], true;
    var tail: Mbuf? := null;
    var p: Mbuf? := org;
    assert Progress(org, p, tail, copy, copies, chain, pool, old(pool.live));
    hide Progress;
    while p != null && done
      invariant Progress(org, p, tail, copy, copies, chain, pool, old(pool.live))
      invariant pool.refusals == old(pool.refusals) + if done then 0 else 1
      invariant tail != null ==> fresh(tail)
      invariant forall i :: 0 <= i < |copies| ==> fresh(copies[i])
      decreases |chain| - |copies|, done
    {
      ProgressFacts(org, p, tail, copy, copies, chain, pool, old(pool.live));
      var m;
      m, copy, p := CopyNext(org, p, pool, copy, tail, copies, chain, old(pool.live));
      if m == null {
        done := false;
      } else {
        tail, copies := m, copies + [m];
      }
    }
    ProgressFacts(org, p, tail, copy, copies, chain, pool, old(pool.live));
  }

  lemma ProgressFacts(org: Mbuf, p: Mbuf?, tail: Mbuf?, copy: Mbuf?, copies: seq<Mbuf>, chain: seq<Mbuf>,
                      pool: Pool, before: set<Mbuf>)
    requires Progress(org, p, tail, copy, copies, chain, pool, before)
    ensures Chain(org, chain) && CopyOf(copy, copies, chain, pool, before)
    ensures |copies| <= |chain| && (p == null <==> |copies| == |chain|)
    ensures forall i :: 0 <= i < |copies| ==> copies[i] !in chain
  {
  }

  /* The copy of one packet in `mirror_proc`. The result is a chain of fresh segments with the
     contents of the original, or null with every segment given back. The original is not
     modified. */
  method DeepCopy(org: Mbuf, pool: Pool, ghost chain: seq<Mbuf>) returns (copy: Mbuf?, ghost copies: seq<Mbuf>)
    requires Chain(org, chain)
    modifies pool
    ensures Chain(org, chain) && CopyOf(copy, copies, chain, pool, old(pool.live))
    ensures if copy != null then |copies| == |chain| else copies == []
    ensures copy == null <==> pool.refusals > old(pool.refusals)
    ensures forall i :: 0 <= i < |copies| ==> fresh(copies[i]) && copies[i] !in chain
  {
    ChainHead(org, chain);
    hide Chain, CopyOf;
    var done;
    copy, copies, done := CopyChain(org, pool, chain);
    CopyHead(copy, copies, chain, pool, old(pool.live));
    if !done {
      GiveBack(pool, copy, copies, chain, old(pool.live));
      copy, copies := null, [];
    }
  }

  lemma ChainHead(m: Mbuf, chain: seq<Mbuf>)
    requires Chain(m, chain)
    ensures chain != []
  {
  }
}
