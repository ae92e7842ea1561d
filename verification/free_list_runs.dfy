/** What the invariant means over whole runs of the free list. */
module FreeListRuns {
  import opened Bits
  import opened HeadWord
  import opened FreeList
  import opened FreeListSafety

  /** One turn of the scheduler: which thread moves, and the choice it makes. */
  datatype Turn<V> = Turn(t: nat, ch: Choice<V>)

  function Run<V>(c: Config, s: State<V>, turns: seq<Turn<V>>): (r: State<V>)
    requires c.bits <= WORD_BITS && forall k :: 0 <= k < |turns| ==> turns[k].t < |s.pcs|
    ensures |r.pcs| == |s.pcs|
    decreases turns
  {
    if turns == [] then s else Run(c, Step(c, s, turns[0].t, turns[0].ch), turns[1..])
  }

  ghost predicate Scheduled<V>(turns: seq<Turn<V>>, n: nat) {
    forall k :: 0 <= k < |turns| ==> turns[k].t < n
  }

  /** Between a head load and the CAS on it, fewer releases to that list than there are serials; and no
      `push` or `pop` gets an id that differs from its index within its block. */
  ghost predicate OrderlyRun<V>(c: Config, s: State<V>, turns: seq<Turn<V>>)
    requires c.Valid() && Scheduled(turns, |s.pcs|)
    decreases turns
  {
    turns == [] || (Orderly(c, s.g, s.pcs[turns[0].t])
                    && OrderlyRun(c, Step(c, s, turns[0].t, turns[0].ch), turns[1..]))
  }

  /** The first half of that alone. */
  ghost predicate TimelyRun<V>(c: Config, s: State<V>, turns: seq<Turn<V>>)
    requires c.Valid() && Scheduled(turns, |s.pcs|)
    decreases turns
  {
    turns == [] || (Timely(c, s.g, s.pcs[turns[0].t])
                    && TimelyRun(c, Step(c, s, turns[0].t, turns[0].ch), turns[1..]))
  }

  // ----- every reachable state satisfies the invariant

  lemma {:induction false} UptoMembers(a: nat, b: nat)
    ensures forall i :: i in Upto(a, b) <==> a <= i < b
    ensures NoDup(Upto(a, b))
    decreases b - a
  {
    if a < b {
      UptoMembers(a + 1, b);
    }
  }

  /** Before any block exists, the empty list already runs through every id. */
  lemma {:induction false} UptoChain(a: nat, b: nat)
    requires a <= b
    ensures ChainFrom(map[], b, a, Upto(a, b))
    decreases b - a
  {
    if a < b {
      UptoChain(a + 1, b);
    }
  }

  lemma InitStored<V>(c: Config, n: nat)
    requires c.Valid()
    ensures ListInv(c, Init<V>(c, n).g, Stored)
  {
    SmallIsWord(c.bits, Pow2(c.bits) - 1);
  }

  lemma InitEmpty<V>(c: Config, n: nat)
    requires c.Valid()
    ensures ListInv(c, Init<V>(c, n).g, Empty)
  {
    UptoMembers(c.initial, c.maxIndex);
    UptoChain(c.initial, c.maxIndex);
    SmallIsWord(c.bits, c.initial);
  }

  lemma InitInv<V>(c: Config, n: nat)
    requires c.Valid()
    ensures Inv(c, Init<V>(c, n))
  {
    var s: State<V> := Init(c, n);
    InitStored<V>(c, n);
    InitEmpty<V>(c, n);
    forall t | 0 <= t < n ensures PcInv(c, s.g, t, s.pcs[t]) {
      assert s.pcs[t] == Idle;
    }
  }

  lemma {:induction false} RunKeepsInv<V>(c: Config, s: State<V>, turns: seq<Turn<V>>)
    requires Inv(c, s) && Scheduled(turns, |s.pcs|) && OrderlyRun(c, s, turns)
    ensures Inv(c, Run(c, s, turns))
    decreases turns
  {
    if turns != [] {
      StepKeepsInv(c, s, turns[0].t, turns[0].ch);
      RunKeepsInv(c, Step(c, s, turns[0].t, turns[0].ch), turns[1..]);
    }
  }

  lemma ReachableInv<V>(c: Config, n: nat, turns: seq<Turn<V>>)
    requires c.Valid() && Scheduled(turns, n) && OrderlyRun(c, Init(c, n), turns)
    ensures Inv(c, Run(c, Init(c, n), turns))
  {
    InitInv<V>(c, n);
    RunKeepsInv(c, Init(c, n), turns);
  }

  /** ABA safety. Whenever a head CAS would succeed in an orderly run, the index it removes is the head of the
      list in memory now, and the successor it read earlier is that index's successor now, whatever happened
      to the element in between. */
  lemma HeadCasIsCurrent<V>(c: Config, n: nat, turns: seq<Turn<V>>, t: nat)
    requires c.Valid() && Scheduled(turns, n) && OrderlyRun(c, Init(c, n), turns) && t < n
    ensures var s := Run(c, Init(c, n), turns);
            var pc := s.pcs[t];
            pc.CasHead? && Timely(c, s.g, pc) && Get(s.g, ListOf(pc.op)).word == pc.id ==>
              && Get(s.g, ListOf(pc.op)).chain != [] && Get(s.g, ListOf(pc.op)).chain[0] == pc.at
              && pc.at in s.g.next && Index(c.bits, pc.newid) == s.g.next[pc.at]
              && Serial(c.bits, pc.newid) == Serial(c.bits, pc.id)
  {
    ReachableInv(c, n, turns);
    var s := Run(c, Init(c, n), turns);
    assert PcInv(c, s.g, t, s.pcs[t]);
    var pc := s.pcs[t];
    if pc.CasHead? && Timely(c, s.g, pc) && Get(s.g, ListOf(pc.op)).word == pc.id {
      PopIsCurrent(c, s.g, t, n, pc);
    }
  }

  // ----- no id is ever in two places

  ghost predicate HeldBy<V>(s: State<V>, t: nat, i: nat) {
    t < |s.pcs| && Holds(s.pcs[t], i)
  }

  /** Ids handed out by `next` and not yet given back. */
  ghost predicate WithClient<V>(s: State<V>, i: nat) {
    i in s.g.owner && s.g.owner[i] == ByClient
  }

  /** The lists found in memory, by following `_next` from the two heads, are these. */
  ghost predicate ListsAre<V>(c: Config, s: State<V>, stored: seq<nat>, empty: seq<nat>) {
    && ChainFrom(s.g.next, c.maxIndex, Index(c.bits, s.g.stored.word), stored)
    && ChainFrom(s.g.next, c.maxIndex, Index(c.bits, s.g.empty.word), empty)
    && NoDup(stored) && NoDup(empty)
  }

  ghost predicate Somewhere<V>(s: State<V>, i: nat, stored: seq<nat>, empty: seq<nat>) {
    i in stored || i in empty || WithClient(s, i) || exists t :: HeldBy(s, t, i)
  }

  ghost predicate NeverTwice<V>(s: State<V>, i: nat, stored: seq<nat>, empty: seq<nat>) {
    && (i in stored ==> i !in empty && !WithClient(s, i))
    && (i in empty ==> !WithClient(s, i))
    && (i in stored || i in empty || WithClient(s, i) ==> forall t :: !HeldBy(s, t, i))
    && (forall t, u :: HeldBy(s, t, i) && HeldBy(s, u, i) ==> t == u)
  }

  lemma HeldIsOwned<V>(c: Config, s: State<V>, t: nat, i: nat)
    requires Inv(c, s)
    ensures HeldBy(s, t, i) <==> i in s.g.owner && s.g.owner[i] == ByThread(t)
  {
    if t < |s.pcs| {
      assert PcInv(c, s.g, t, s.pcs[t]);
    }
  }

  lemma InvPartitions<V>(c: Config, s: State<V>, i: nat)
    requires Inv(c, s)
    ensures IsId(c, i) <==> Somewhere(s, i, s.g.stored.chain, s.g.empty.chain)
    ensures NeverTwice(s, i, s.g.stored.chain, s.g.empty.chain)
  {
    assert ListInv(c, s.g, Stored) && ListInv(c, s.g, Empty);
    forall t: nat ensures HeldBy(s, t, i) <==> i in s.g.owner && s.g.owner[i] == ByThread(t) {
      HeldIsOwned(c, s, t, i);
    }
    if IsId(c, i) && s.g.owner[i].ByThread? {
      assert HeldBy(s, s.g.owner[i].t, i);
    }
  }

  ghost predicate Split<V>(c: Config, s: State<V>, stored: seq<nat>, empty: seq<nat>) {
    && ListsAre(c, s, stored, empty)
    && (forall i :: IsId(c, i) <==> Somewhere(s, i, stored, empty))
    && (forall i :: NeverTwice(s, i, stored, empty))
  }

  /** Over every orderly run, whatever the interleaving, the ids are split exactly among the two lists, the
      clients and the threads between the lists: no id is lost and none is in two places. */
  lemma IdsStaySplit<V>(c: Config, n: nat, turns: seq<Turn<V>>)
    requires c.Valid() && Scheduled(turns, n) && OrderlyRun(c, Init(c, n), turns)
    ensures exists stored, empty :: Split(c, Run(c, Init(c, n), turns), stored, empty)
  {
    ReachableInv(c, n, turns);
    var s := Run(c, Init(c, n), turns);
    assert ListInv(c, s.g, Stored) && ListInv(c, s.g, Empty);
    forall i: nat
      ensures IsId(c, i) <==> Somewhere(s, i, s.g.stored.chain, s.g.empty.chain)
      ensures NeverTwice(s, i, s.g.stored.chain, s.g.empty.chain)
    {
      InvPartitions(c, s, i);
    }
    assert Split(c, s, s.g.stored.chain, s.g.empty.chain);
  }

  // ----- giving up is honest

  /** `pop` never meets an unallocated block, so only an empty list makes `next4list` return -1. */
  lemma OnlyLoadHeadGivesUp<V>(c: Config, g: Shared<V>, t: nat, n: nat, pc: Pc<V>, ch: Choice<V>)
    requires GInv(c, g, n) && PcInv(c, g, t, pc)
    ensures Act(c, g, t, pc, ch).1.Idle? ==> pc.Idle? || pc.LoadHead? || pc.CasHead? || pc.RelCas?
  {
    if pc.LoadBlock? {
      LoadBlockKeeps(c, g, t, n, pc, ch);
    }
  }

  /** `next` and `push` fail only when, at their last head load, every id is on the stored list, with a
      client or with a thread; `pop` returns its default only when the stored list is empty then. */
  lemma FailureIsHonest<V>(c: Config, n: nat, turns: seq<Turn<V>>, t: nat, ch: Choice<V>, i: nat)
    requires c.Valid() && Scheduled(turns, n) && OrderlyRun(c, Init(c, n), turns) && t < n
    ensures var s := Run(c, Init(c, n), turns);
            var pc := s.pcs[t];
            Step(c, s, t, ch).pcs[t].Idle? && !pc.Idle? && !pc.RelCas? && !pc.CasHead? ==>
              && pc.LoadHead?
              && (pc.op.PopOp? ==> s.g.stored.chain == [])
              && (!pc.op.PopOp? && IsId(c, i) ==>
                    i in s.g.stored.chain || WithClient(s, i) || exists u :: HeldBy(s, u, i))
  {
    ReachableInv(c, n, turns);
    var s := Run(c, Init(c, n), turns);
    assert PcInv(c, s.g, t, s.pcs[t]);
    OnlyLoadHeadGivesUp(c, s.g, t, n, s.pcs[t], ch);
    if s.pcs[t].LoadHead? {
      GiveUpMeansEmpty(c, s.g, n, s.pcs[t].op);
      InvPartitions(c, s, i);
    }
  }

  // ----- the values: last in, first out, and none lost

  /** Replaying the linearization points of the run on an ordinary stack succeeds, and ends in exactly the
      values now on the stored list, read through `_next` and the payloads. */
  lemma ValuesAreAStack<V>(c: Config, n: nat, turns: seq<Turn<V>>)
    requires c.Valid() && Scheduled(turns, n) && OrderlyRun(c, Init(c, n), turns)
    ensures var g := Run(c, Init(c, n), turns).g;
            && ChainFrom(g.next, c.maxIndex, Index(c.bits, g.stored.word), g.stored.chain)
            && (forall i :: i in g.stored.chain ==> i in g.payload)
            && Replay(g.log) == Some(Values(g.payload, g.stored.chain))
  {
    ReachableInv(c, n, turns);
    var g := Run(c, Init(c, n), turns).g;
    assert ListInv(c, g, Stored);
  }

  /** How often v was pushed, according to a log. */
  function PushedCount<V(==)>(log: seq<Event<V>>, v: V): nat {
    if log == [] then 0
    else PushedCount(log[..|log| - 1], v) + if log[|log| - 1] == Pushed(v) then 1 else 0
  }

  function PoppedCount<V(==)>(log: seq<Event<V>>, v: V): nat {
    if log == [] then 0
    else PoppedCount(log[..|log| - 1], v) + if log[|log| - 1] == Popped(v) then 1 else 0
  }

  lemma {:induction false} ReplayConserves<V>(log: seq<Event<V>>, v: V)
    requires Replay(log).Some?
    ensures PushedCount(log, v) == multiset(Replay(log).value)[v] + PoppedCount(log, v)
  {
    if log != [] {
      var before := log[..|log| - 1];
      ReplayConserves(before, v);
      var s, e := Replay(before).value, log[|log| - 1];
      if e.Popped? {
        assert s == [e.v] + s[1..];
      }
    }
  }

  /** Whether a thread has popped v and not yet returned it. */
  function Carried<V(==)>(pc: Pc<V>, v: V): nat {
    if pc.GetPayload? && pc.taken == v then 1
    else if (pc.RelHead? || pc.RelNext? || pc.RelCas?) && pc.job.Returning? && pc.job.taken == v then 1
    else 0
  }

  function InFlight<V(==)>(pcs: seq<Pc<V>>, v: V): nat {
    if pcs == [] then 0 else Carried(pcs[0], v) + InFlight(pcs[1..], v)
  }

  lemma {:induction false} InFlightUpdate<V>(pcs: seq<Pc<V>>, t: nat, pc: Pc<V>, v: V)
    requires t < |pcs|
    ensures InFlight(pcs[t := pc], v) + Carried(pcs[t], v) == InFlight(pcs, v) + Carried(pc, v)
  {
    if t == 0 {
      assert pcs[0 := pc][1..] == pcs[1..];
    } else {
      assert pcs[t := pc][1..] == pcs[1..][t - 1 := pc];
      InFlightUpdate(pcs[1..], t - 1, pc, v);
    }
  }

  ghost predicate Flow<V>(s: State<V>, v: V) {
    PoppedCount(s.g.log, v) == InFlight(s.pcs, v) + multiset(s.g.returned)[v]
  }

  lemma PoppedAppend<V>(log: seq<Event<V>>, e: Event<V>, v: V)
    ensures PoppedCount(log + [e], v) == PoppedCount(log, v) + if e == Popped(v) then 1 else 0
  {
    assert (log + [e])[..|log|] == log;
  }

  /** One thread's step moves a value from the log to the thread, or from the thread to the caller. */
  ghost predicate FlowStep<V>(g: Shared<V>, pc: Pc<V>, r: (Shared<V>, Pc<V>), v: V) {
    PoppedCount(r.0.log, v) + Carried(pc, v) + multiset(g.returned)[v]
    == PoppedCount(g.log, v) + Carried(r.1, v) + multiset(r.0.returned)[v]
  }

  lemma PopFlow<V>(g: Shared<V>, t: nat, op: Op<V>, at: nat, newid: nat, v: V)
    ensures PoppedCount(PopCommit(g, t, op, at, newid).log, v)
            == PoppedCount(g.log, v) + Carried(AfterPop(g, op, at), v)
    ensures PopCommit(g, t, op, at, newid).returned == g.returned
  {
    if op.PopOp? {
      PoppedAppend(g.log, Popped(Payload(g, at, op.default)), v);
    }
  }

  lemma CasFlow<V>(c: Config, g: Shared<V>, t: nat, pc: Pc<V>, ch: Choice<V>, v: V)
    requires c.Valid() && pc.CasHead?
    ensures FlowStep(g, pc, Act(c, g, t, pc, ch), v)
  {
    PopFlow(g, t, pc.op, pc.at, pc.newid, v);
  }

  lemma CountAppend<V>(xs: seq<V>, x: V, v: V)
    ensures multiset(xs + [x])[v] == multiset(xs)[v] + if x == v then 1 else 0
  {
  }

  lemma ReleaseFlow<V>(c: Config, g: Shared<V>, t: nat, pc: Pc<V>, ch: Choice<V>, v: V)
    requires c.Valid() && PcFacts(c, g, pc) && pc.RelCas?
    ensures FlowStep(g, pc, Act(c, g, t, pc, ch), v)
  {
    if pc.job.Pushing? {
      PoppedAppend(g.log, Pushed(pc.job.v), v);
    } else if pc.job.Returning? {
      CountAppend(g.returned, pc.job.ret, v);
    }
  }

  lemma QuietLog<V>(c: Config, g: Shared<V>, t: nat, pc: Pc<V>, ch: Choice<V>, v: V)
    requires c.Valid() && !pc.CasHead? && !pc.RelCas?
    ensures PoppedCount(Act(c, g, t, pc, ch).0.log, v) == PoppedCount(g.log, v)
    ensures Act(c, g, t, pc, ch).0.returned == g.returned
  {
    PoppedAppend(g.log, FoundEmpty, v);
  }

  lemma QuietFlow<V>(c: Config, g: Shared<V>, t: nat, pc: Pc<V>, ch: Choice<V>, v: V)
    requires c.Valid() && !pc.CasHead? && !pc.RelCas?
    ensures FlowStep(g, pc, Act(c, g, t, pc, ch), v)
  {
    QuietLog(c, g, t, pc, ch, v);
  }

  lemma ActFlow<V>(c: Config, g: Shared<V>, t: nat, pc: Pc<V>, ch: Choice<V>, v: V)
    requires c.Valid() && PcFacts(c, g, pc)
    ensures FlowStep(g, pc, Act(c, g, t, pc, ch), v)
  {
    if pc.CasHead? {
      CasFlow(c, g, t, pc, ch, v);
    } else if pc.RelCas? {
      ReleaseFlow(c, g, t, pc, ch, v);
    } else {
      QuietFlow(c, g, t, pc, ch, v);
    }
  }

  lemma StepKeepsFlow<V>(c: Config, s: State<V>, t: nat, ch: Choice<V>, v: V)
    requires c.Valid() && t < |s.pcs| && PcFacts(c, s.g, s.pcs[t]) && Flow(s, v)
    ensures Flow(Step(c, s, t, ch), v)
  {
    ActFlow(c, s.g, t, s.pcs[t], ch, v);
    InFlightUpdate(s.pcs, t, Act(c, s.g, t, s.pcs[t], ch).1, v);
  }

  lemma {:induction false} RunKeepsFlow<V>(c: Config, s: State<V>, turns: seq<Turn<V>>, v: V)
    requires Inv(c, s) && Scheduled(turns, |s.pcs|) && OrderlyRun(c, s, turns) && Flow(s, v)
    ensures Flow(Run(c, s, turns), v)
    decreases turns
  {
    if turns != [] {
      var t, ch := turns[0].t, turns[0].ch;
      StepKeepsInv(c, s, t, ch);
      assert PcInv(c, s.g, t, s.pcs[t]);
      StepKeepsFlow(c, s, t, ch, v);
      RunKeepsFlow(c, Step(c, s, t, ch), turns[1..], v);
    }
  }

  lemma {:induction false} NothingInFlight<V>(pcs: seq<Pc<V>>, v: V)
    requires forall t :: 0 <= t < |pcs| ==> pcs[t] == Idle
    ensures InFlight(pcs, v) == 0
  {
    if pcs != [] {
      NothingInFlight(pcs[1..], v);
    }
  }

  /** Over every orderly run, each value was pushed as often as it is now stored, popped by a call still on
      its way, or returned to a caller: every pushed value is returned at most once, unchanged. */
  lemma ValuesAreConserved<V>(c: Config, n: nat, turns: seq<Turn<V>>, v: V)
    requires c.Valid() && Scheduled(turns, n) && OrderlyRun(c, Init(c, n), turns)
    ensures var s := Run(c, Init(c, n), turns);
            && (forall i :: i in s.g.stored.chain ==> i in s.g.payload)
            && PushedCount(s.g.log, v)
               == multiset(Values(s.g.payload, s.g.stored.chain))[v] + InFlight(s.pcs, v)
                  + multiset(s.g.returned)[v]
  {
    InitInv<V>(c, n);
    NothingInFlight<V>(Init<V>(c, n).pcs, v);
    RunKeepsFlow(c, Init(c, n), turns, v);
    RunKeepsInv(c, Init(c, n), turns);
    ReplayConserves(Run(c, Init(c, n), turns).g.log, v);
  }
}
