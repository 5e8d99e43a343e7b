/** Publication through a two-sided buffer, as the forwarder and the mirror use it.

The master writes a configuration to the update side, in as many partial writes
as it likes, publishes it with `upd_index = ref_index` and waits. The worker
starts each pass by moving `ref_index` away from an equal `upd_index`, fetches a
pointer to the reference side and reads the configuration through it until the
pass ends. A run is any interleaving of these events.
 */
module TwoSides {

  datatype Master<C> = Idle | Building(goal: C) | Waiting(goal: C)

  /** `Reading` holds the side of the pass and the configuration in force when it was fetched. */
  datatype Worker<C> = Top | Fetch | Reading(side: nat, cfg: C)

  /** `cfg` is the configuration in force: the last one whose update the worker took over. */
  datatype State<C> = State(sides: seq<C>, ref: nat, upd: nat, m: Master<C>, w: Worker<C>, cfg: C)

  datatype Event<C> =
    | MBegin(goal: C)
    | MWrite(partial: C)
    | MPublish
    | MDone
    | WCheck
    | WFetch
    | WEnd

  predicate ByMaster<C>(e: Event<C>) {
    e.MBegin? || e.MWrite? || e.MPublish? || e.MDone?
  }

  predicate WellFormed<C>(s: State<C>) {
    |s.sides| == 2 && s.ref < 2 && s.upd < 2
  }

  predicate Enabled<C(==)>(s: State<C>, e: Event<C>) {
    && WellFormed(s)
    && match e
       case MBegin(_) => s.m.Idle?
       case MWrite(_) => s.m.Building?
       case MPublish => s.m.Building? && s.sides[s.upd] == s.m.goal
       case MDone => s.m.Waiting? && s.ref != s.upd
       case WCheck => s.w.Top?
       case WFetch => s.w.Fetch?
       case WEnd => s.w.Reading?
  }

  function Apply<C(==)>(s: State<C>, e: Event<C>): State<C>
    requires Enabled(s, e)
  {
    match e
    case MBegin(goal) => s.(m := Building(goal))
    case MWrite(partial) => s.(sides := s.sides[s.upd := partial])
    case MPublish => s.(m := Waiting(s.m.goal), upd := s.ref)
    case MDone => s.(m := Idle)
    case WCheck =>
      if s.ref == s.upd
      then s.(w := Fetch, ref := (s.upd + 1) % 2, cfg := if s.m.Waiting? then s.m.goal else s.cfg)
      else s.(w := Fetch)
    case WFetch => s.(w := Reading(s.ref, s.cfg))
    case WEnd => s.(w := Top)
  }

  predicate IsRun<C(==)>(s: State<C>, run: seq<Event<C>>)
    decreases |run|
  {
    run == [] || (Enabled(s, run[0]) && IsRun(Apply(s, run[0]), run[1..]))
  }

  function End<C(==)>(s: State<C>, run: seq<Event<C>>): State<C>
    requires IsRun(s, run)
    decreases |run|
  {
    if run == [] then s else End(Apply(s, run[0]), run[1..])
  }

  /** The state after `init_forwarder` or `mirror_proc_init`, with every path zero. */
  function Start<C>(zero: C): State<C> {
    State([zero, zero], 0, 1, Idle, Top, zero)
  }

  ghost predicate Inv<C(!new)>(s: State<C>) {
    && WellFormed(s)
    && (s.ref == s.upd ==> s.m.Waiting? && s.sides[1 - s.ref] == s.m.goal)
    && s.sides[s.ref] == s.cfg
    && (s.m.Waiting? && s.ref != s.upd ==> s.cfg == s.m.goal)
    && (s.w.Reading? ==> s.w.side == s.ref && s.w.cfg == s.cfg)
  }

  lemma Step<C(!new)>(s: State<C>, e: Event<C>)
    requires Inv(s) && Enabled(s, e)
    ensures Inv(Apply(s, e))
  {
  }

  lemma {:induction false} RunInv<C(!new)>(s: State<C>, run: seq<Event<C>>)
    requires Inv(s) && IsRun(s, run)
    ensures Inv(End(s, run))
    decreases |run|
  {
    if run != [] {
      Step(s, run[0]);
      RunInv(Apply(s, run[0]), run[1..]);
    }
  }

  /* Throughout a pass the worker sees one complete configuration: the one in force when the
     pass began, however far the master has got with the next one. */
  lemma PassReadsOneConfig<C(!new)>(zero: C, run: seq<Event<C>>)
    requires IsRun(Start(zero), run)
    ensures var t := End(Start(zero), run);
            t.w.Reading? ==> t.w.side < |t.sides| && t.sides[t.w.side] == t.w.cfg
  {
    RunInv(Start(zero), run);
  }

  /* When the master can leave its wait, and from then on until the next publication is taken
     over, the worker's side holds the configuration of the last update. */
  lemma UpdateIsInForce<C(!new)>(zero: C, run: seq<Event<C>>)
    requires IsRun(Start(zero), run)
    ensures var t := End(Start(zero), run);
            && t.ref < |t.sides| && t.sides[t.ref] == t.cfg
            && (t.m.Waiting? && Enabled(t, MDone) ==> t.cfg == t.m.goal)
  {
    RunInv(Start(zero), run);
  }

  /* Only the start of a worker pass changes the configuration in force, and it takes over
     the update the master is waiting for. */
  lemma ConfigChangesByHandOver<C(!new)>(s: State<C>, e: Event<C>)
    requires Inv(s) && Enabled(s, e)
    ensures var t := Apply(s, e);
            t.cfg != s.cfg ==> e.WCheck? && s.m.Waiting? && t.cfg == s.m.goal && t.ref != t.upd
  {
  }

  ghost function Fetches<C>(run: seq<Event<C>>): nat {
    if run == [] then 0 else (if run[0].WFetch? then 1 else 0) + Fetches(run[1..])
  }

  /* A master that still waits has seen at most the rest of one pass: the start of the next
     pass ends the wait. */
  lemma {:induction false} WaitEndsWithNextPass<C(!new)>(s: State<C>, run: seq<Event<C>>)
    requires Inv(s) && s.m.Waiting? && IsRun(s, run)
    requires forall i :: 0 <= i < |run| ==> !ByMaster(run[i])
    requires End(s, run).ref == End(s, run).upd
    ensures s.ref == s.upd && Fetches(run) <= if s.w.Fetch? then 1 else 0
    decreases |run|
  {
    if run != [] {
      assert !ByMaster(run[0]);
      Step(s, run[0]);
      WaitEndsWithNextPass(Apply(s, run[0]), run[1..]);
    }
  }

  lemma {:induction false} WaitKeeps<C(!new)>(s: State<C>, run: seq<Event<C>>)
    requires Inv(s) && s.m.Waiting? && IsRun(s, run)
    requires forall i :: 0 <= i < |run| ==> !ByMaster(run[i])
    ensures End(s, run).m == s.m
    ensures s.ref != s.upd || WCheck in run ==> End(s, run).ref != End(s, run).upd
    decreases |run|
  {
    if run != [] {
      assert !ByMaster(run[0]);
      assert run == [run[0]] + run[1..];
      Step(s, run[0]);
      WaitKeeps(Apply(s, run[0]), run[1..]);
    }
  }

  /* An update takes effect: once the worker has started a pass after its publication, the
     configuration written is in force on the worker's side and the master can go on. */
  lemma UpdateTakesEffect<C(!new)>(s: State<C>, run: seq<Event<C>>)
    requires Inv(s) && Enabled(s, MPublish) && IsRun(Apply(s, MPublish), run) && WCheck in run
    requires forall i :: 0 <= i < |run| ==> !ByMaster(run[i])
    ensures var t := End(Apply(s, MPublish), run);
            && t.cfg == s.sides[s.upd] && t.ref < |t.sides| && t.sides[t.ref] == s.sides[s.upd]
            && Enabled(t, MDone)
  {
    Step(s, MPublish);
    WaitKeeps(Apply(s, MPublish), run);
    RunInv(Apply(s, MPublish), run);
  }
}
