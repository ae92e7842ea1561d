/** The free list is lock-free: however its threads interleave, the accesses they make are bounded by the calls they
    begin and the CASes that fail spuriously. */
module FreeListProgress {
  import opened Products
  import opened FreeList
  import opened FreeListRuns

  /** The most accesses a call makes before it ends or changes a head, whatever it remembers of it. */
  const MOST := 13

  /** The CASes on a head that have yet to succeed before the call can end well. */
  function Chances<V>(pc: Pc<V>): nat {
    match pc
    case Idle => 0
    case LoadHead(_) => 2
    case LoadBlock(_, _, _, _) => 2
    case Publish(_, _, _, _) => 2
    case ReadNext(_, _, _, _) => 2
    case CasHead(_, _, _, _, _) => 2
    case _ => 1
  }

  /** The accesses before the next CAS that succeeds, if no other thread changes a head meanwhile: a stale snapshot
      costs the rest of one vain attempt. */
  function Left<V>(g: Shared<V>, pc: Pc<V>): (r: nat)
    ensures r <= MOST && (r == 0 <==> pc.Idle?)
  {
    match pc
    case Idle => 0
    case LoadHead(_) => 9
    case LoadBlock(op, id, _, _) => 8 + Stale(g, ListOf(op), id)
    case Publish(op, id, _, _) => 7 + Stale(g, ListOf(op), id)
    case ReadNext(op, id, _, _) => 6 + Stale(g, ListOf(op), id)
    case CasHead(op, id, _, _, _) => 5 + Stale(g, ListOf(op), id)
    case SetPayload(_, _) => 4
    case GetPayload(_, _, _) => 4
    case RelHead(_, _) => 3
    case RelNext(_, job, x) => if Get(g, Target(job)).word == x then 2 else 5
    case RelCas(_, job, x) => if Get(g, Target(job)).word == x then 1 else 4
  }

  function Stale<V>(g: Shared<V>, l: ListId, id: nat): nat {
    if Get(g, l).word == id then 0 else 5
  }

  ghost predicate SameHeads<V>(g: Shared<V>, h: Shared<V>) {
    g.stored.word == h.stored.word && g.empty.word == h.empty.word
  }

  /** A CAS that fails although the head is what it expects. */
  predicate FailsSpuriously<V>(pc: Pc<V>, ch: Choice<V>) {
    ch.Spurious? && (pc.CasHead? || pc.RelCas?)
  }

  /** An access of a call in progress brings its end nearer; and it leaves the heads alone or is a CAS that
      succeeds. */
  lemma AccessAdvances<V>(c: Config, g: Shared<V>, t: nat, pc: Pc<V>, ch: Choice<V>)
    requires c.Valid() && !pc.Idle? && !FailsSpuriously(pc, ch)
    ensures var (h, q) := Act(c, g, t, pc, ch);
            && Left(h, q) < Left(g, pc) && Chances(q) <= Chances(pc)
            && (SameHeads(g, h) || Chances(q) < Chances(pc))
  {
  }

  // ----- all threads together

  function AllLeft<V>(g: Shared<V>, pcs: seq<Pc<V>>): (r: nat)
    ensures r <= MOST * |pcs|
  {
    if pcs == [] then 0 else Left(g, pcs[0]) + AllLeft(g, pcs[1..])
  }

  function AllChances<V>(pcs: seq<Pc<V>>): nat {
    if pcs == [] then 0 else Chances(pcs[0]) + AllChances(pcs[1..])
  }

  lemma {:induction false} LeftUpdate<V>(g: Shared<V>, h: Shared<V>, pcs: seq<Pc<V>>, t: nat, pc: Pc<V>)
    requires t < |pcs| && SameHeads(g, h)
    ensures AllLeft(h, pcs[t := pc]) + Left(g, pcs[t]) == AllLeft(g, pcs) + Left(h, pc)
  {
    if t == 0 {
      assert pcs[0 := pc][1..] == pcs[1..];
      LeftSame(g, h, pcs[1..]);
    } else {
      assert pcs[t := pc][1..] == pcs[1..][t - 1 := pc];
      LeftUpdate(g, h, pcs[1..], t - 1, pc);
    }
  }

  lemma {:induction false} LeftSame<V>(g: Shared<V>, h: Shared<V>, pcs: seq<Pc<V>>)
    requires SameHeads(g, h)
    ensures AllLeft(h, pcs) == AllLeft(g, pcs)
  {
    if pcs != [] {
      LeftSame(g, h, pcs[1..]);
    }
  }

  lemma {:induction false} LeftAtLeast<V>(g: Shared<V>, pcs: seq<Pc<V>>, t: nat)
    requires t < |pcs|
    ensures Left(g, pcs[t]) <= AllLeft(g, pcs)
  {
    if t > 0 {
      LeftAtLeast(g, pcs[1..], t - 1);
    }
  }

  lemma {:induction false} ChancesUpdate<V>(pcs: seq<Pc<V>>, t: nat, pc: Pc<V>)
    requires t < |pcs|
    ensures AllChances(pcs[t := pc]) + Chances(pcs[t]) == AllChances(pcs) + Chances(pc)
  {
    if t == 0 {
      assert pcs[0 := pc][1..] == pcs[1..];
    } else {
      assert pcs[t := pc][1..] == pcs[1..][t - 1 := pc];
      ChancesUpdate(pcs[1..], t - 1, pc);
    }
  }

  lemma {:induction false} IdleLeft<V>(g: Shared<V>, pcs: seq<Pc<V>>)
    requires forall t :: 0 <= t < |pcs| ==> pcs[t] == Idle
    ensures AllLeft(g, pcs) == 0 && AllChances(pcs) == 0
  {
    if pcs != [] {
      IdleLeft(g, pcs[1..]);
    }
  }

  /** The accesses the calls in progress can still make: every CAS that succeeds may make all threads' snapshots
      stale. */
  function Pending<V>(s: State<V>): nat {
    MOST * |s.pcs| * AllChances(s.pcs) + AllLeft(s.g, s.pcs)
  }

  /** An access uses up one of those pending. */
  lemma AccessIsPaid<V>(c: Config, s: State<V>, t: nat, ch: Choice<V>)
    requires c.Valid() && t < |s.pcs| && !s.pcs[t].Idle? && !FailsSpuriously(s.pcs[t], ch)
    ensures Pending(Step(c, s, t, ch)) < Pending(s)
  {
    var s' := Step(c, s, t, ch);
    var k := MOST * |s.pcs|;
    AccessAdvances(c, s.g, t, s.pcs[t], ch);
    ChancesUpdate(s.pcs, t, s'.pcs[t]);
    if AllChances(s'.pcs) < AllChances(s.pcs) {
      TimesMore(k, AllChances(s'.pcs), AllChances(s.pcs));
      LeftAtLeast(s.g, s.pcs, t);
    } else {
      LeftUpdate(s.g, s'.g, s.pcs, t, s'.pcs[t]);
    }
  }

  /** A spurious failure costs one more attempt, and the start of a call at most three rounds of all threads. */
  lemma FailureIsCheap<V>(c: Config, s: State<V>, t: nat, ch: Choice<V>)
    requires c.Valid() && t < |s.pcs| && FailsSpuriously(s.pcs[t], ch)
    ensures Pending(Step(c, s, t, ch)) < Pending(s) + MOST
  {
    var s' := Step(c, s, t, ch);
    ChancesUpdate(s.pcs, t, s'.pcs[t]);
    LeftUpdate(s.g, s'.g, s.pcs, t, s'.pcs[t]);
  }

  lemma StartIsPaid<V>(c: Config, s: State<V>, t: nat, ch: Choice<V>)
    requires c.Valid() && t < |s.pcs| && s.pcs[t].Idle?
    ensures var s' := Step(c, s, t, ch);
            if s'.pcs[t].Idle? then Pending(s') == Pending(s)
            else Pending(s') <= Pending(s) + 3 * (MOST * |s.pcs|)
  {
    var s' := Step(c, s, t, ch);
    ChancesUpdate(s.pcs, t, s'.pcs[t]);
    LeftUpdate(s.g, s'.g, s.pcs, t, s'.pcs[t]);
    UpToTwoMore(MOST * |s.pcs|, AllChances(s.pcs), AllChances(s'.pcs));
  }

  // ----- whole runs

  /** The turns in which a thread makes an access. */
  function Accesses<V>(c: Config, s: State<V>, turns: seq<Turn<V>>): nat
    requires c.Valid() && Scheduled(turns, |s.pcs|)
    decreases turns
  {
    if turns == [] then 0
    else (if s.pcs[turns[0].t].Idle? then 0 else 1)
         + Accesses(c, Step(c, s, turns[0].t, turns[0].ch), turns[1..])
  }

  /** The turns in which a thread begins a call. */
  function Calls<V>(c: Config, s: State<V>, turns: seq<Turn<V>>): nat
    requires c.Valid() && Scheduled(turns, |s.pcs|)
    decreases turns
  {
    if turns == [] then 0
    else
      var s' := Step(c, s, turns[0].t, turns[0].ch);
      (if s.pcs[turns[0].t].Idle? && !s'.pcs[turns[0].t].Idle? then 1 else 0) + Calls(c, s', turns[1..])
  }

  /** The turns in which a CAS fails spuriously. */
  function Failures<V>(c: Config, s: State<V>, turns: seq<Turn<V>>): nat
    requires c.Valid() && Scheduled(turns, |s.pcs|)
    decreases turns
  {
    if turns == [] then 0
    else (if FailsSpuriously(s.pcs[turns[0].t], turns[0].ch) then 1 else 0)
         + Failures(c, Step(c, s, turns[0].t, turns[0].ch), turns[1..])
  }

  lemma {:induction false} AccessesArePaid<V>(c: Config, s: State<V>, turns: seq<Turn<V>>)
    requires c.Valid() && Scheduled(turns, |s.pcs|)
    ensures Accesses(c, s, turns)
            <= Pending(s) + 3 * (MOST * |s.pcs|) * Calls(c, s, turns) + MOST * Failures(c, s, turns)
    decreases turns
  {
    if turns != [] {
      var t, ch := turns[0].t, turns[0].ch;
      var s' := Step(c, s, t, ch);
      var k := 3 * (MOST * |s.pcs|);
      AccessesArePaid(c, s', turns[1..]);
      if s.pcs[t].Idle? {
        StartIsPaid(c, s, t, ch);
        OneMore(k, Calls(c, s', turns[1..]));
      } else if FailsSpuriously(s.pcs[t], ch) {
        FailureIsCheap(c, s, t, ch);
      } else {
        AccessIsPaid(c, s, t, ch);
      }
    }
  }

  /** Over every run from the constructor's state, timely or not, n threads that begin k calls make at most 39nk
      accesses, and 13 more for each CAS that failed spuriously: no schedule makes them retry for ever. */
  lemma RunsAreShort<V>(c: Config, n: nat, turns: seq<Turn<V>>)
    requires c.Valid() && Scheduled(turns, n)
    ensures var s: State<V> := Init(c, n);
            Accesses(c, s, turns) <= 39 * n * Calls(c, s, turns) + 13 * Failures(c, s, turns)
  {
    var s: State<V> := Init(c, n);
    IdleLeft(s.g, s.pcs);
    AccessesArePaid(c, s, turns);
  }

  // ----- a thread left to itself

  function Alone<V>(c: Config, s: State<V>, t: nat, k: nat): (r: State<V>)
    requires c.Valid() && t < |s.pcs|
    ensures |r.pcs| == |s.pcs|
    decreases k
  {
    if k == 0 then s else Alone(c, Step(c, s, t, Proceed), t, k - 1)
  }

  lemma {:induction false} AloneAdvances<V>(c: Config, s: State<V>, t: nat, k: nat)
    requires c.Valid() && t < |s.pcs| && Left(s.g, s.pcs[t]) <= k
    ensures Alone(c, s, t, k).pcs[t].Idle?
    decreases k
  {
    if k > 0 {
      if !s.pcs[t].Idle? {
        AccessAdvances(c, s.g, t, s.pcs[t], Proceed);
      }
      AloneAdvances(c, Step(c, s, t, Proceed), t, k - 1);
    }
  }

  /** From any state whatever, a thread left to itself ends its call within 13 accesses. */
  lemma AloneEnds<V>(c: Config, s: State<V>, t: nat)
    requires c.Valid() && t < |s.pcs|
    ensures Alone(c, s, t, 13).pcs[t].Idle?
  {
    AloneAdvances(c, s, t, 13);
  }
}
