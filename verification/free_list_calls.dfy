/** What the calls of the free list come to: how each of them ends, where its id goes, and what one thread that
    is not disturbed gets. */
module FreeListCalls {
  import opened Bits
  import opened HeadWord
  import opened FreeList
  import opened FreeListSafety
  import opened FreeListRuns
  import opened FreeListSolo
  import opened FreeListBlocks

  // ----- how a call ends

  /** What a step that ends a call has done. A call fails only at a head load that finds its list empty; `next`
      ends by taking the head of the empty list for the client; `push` ends with its id in front of the stored
      list, and `release` and `pop` with theirs in front of the empty list. */
  ghost predicate EndsWell<V>(g: Shared<V>, pc: Pc<V>, h: Shared<V>) {
    match pc
    case LoadHead(op) =>
      && (if op.PopOp? then g.stored.chain == [] else g.empty.chain == [])
      && h.stored == g.stored && h.empty == g.empty && h.owner == g.owner && h.returned == g.returned
    case CasHead(op, id, at, ver, newid) =>
      && op.NextOp? && g.empty.chain == [at] + h.empty.chain && h.stored == g.stored
      && at in h.owner && h.owner[at] == ByClient && h.returned == g.returned
    case RelCas(at, job, x) =>
      && (if job.Pushing? then h.stored.chain == [at] + g.stored.chain && h.empty == g.empty
          else h.empty.chain == [at] + g.empty.chain && h.stored == g.stored)
      && h.returned == if job.Returning? then g.returned + [job.ret] else g.returned
    case _ => false
  }

  lemma HeadCasEndsWell<V>(c: Config, g: Shared<V>, t: nat, n: nat, pc: Pc<V>, ch: Choice<V>)
    requires GInv(c, g, n) && PcInv(c, g, t, pc) && Timely(c, g, pc) && pc.CasHead?
    ensures var (h, q) := Act(c, g, t, pc, ch);
            q.Idle? ==> EndsWell(g, pc, h)
  {
    if !ch.Spurious? && Get(g, ListOf(pc.op)).word == pc.id {
      PopIsCurrent(c, g, t, n, pc);
    }
  }

  lemma LoadEndsWell<V>(c: Config, g: Shared<V>, t: nat, n: nat, op: Op<V>, ch: Choice<V>)
    requires GInv(c, g, n)
    ensures var (h, q) := Act(c, g, t, LoadHead(op), ch);
            q.Idle? ==> EndsWell(g, LoadHead(op), h)
  {
    GiveUpMeansEmpty(c, g, n, op);
  }

  /** No call ends in any other way; in particular none gives up on contention, at a block, or half way. */
  lemma CallsEndWell<V>(c: Config, g: Shared<V>, t: nat, n: nat, pc: Pc<V>, ch: Choice<V>)
    requires GInv(c, g, n) && PcInv(c, g, t, pc) && Timely(c, g, pc) && !pc.Idle?
    ensures var (h, q) := Act(c, g, t, pc, ch);
            q.Idle? ==> EndsWell(g, pc, h)
  {
    if pc.LoadHead? {
      LoadEndsWell(c, g, t, n, pc.op, ch);
    } else if pc.CasHead? {
      HeadCasEndsWell(c, g, t, n, pc, ch);
    } else if pc.LoadBlock? {
      LoadBlockKeeps(c, g, t, n, pc, ch);
    }
  }

  /** The same over orderly runs, with both lists read from memory before and after. */
  lemma RunsEndCallsWell<V>(c: Config, n: nat, turns: seq<Turn<V>>, t: nat, ch: Choice<V>)
    requires c.Valid() && Scheduled(turns, n) && OrderlyRun(c, Init(c, n), turns) && t < n
    ensures var s := Run(c, Init(c, n), turns);
            var s' := Step(c, s, t, ch);
            Orderly(c, s.g, s.pcs[t]) ==>
              && ListsAre(c, s, s.g.stored.chain, s.g.empty.chain)
              && ListsAre(c, s', s'.g.stored.chain, s'.g.empty.chain)
              && (!s.pcs[t].Idle? && s'.pcs[t].Idle? ==> EndsWell(s.g, s.pcs[t], s'.g))
  {
    ReachableInv(c, n, turns);
    var s := Run(c, Init(c, n), turns);
    if Orderly(c, s.g, s.pcs[t]) {
      StepKeepsInv(c, s, t, ch);
      InvLists(c, s);
      InvLists(c, Step(c, s, t, ch));
      assert PcInv(c, s.g, t, s.pcs[t]);
      if !s.pcs[t].Idle? {
        CallsEndWell(c, s.g, t, n, s.pcs[t], ch);
      }
    }
  }

  lemma InvLists<V>(c: Config, s: State<V>)
    requires Inv(c, s)
    ensures ListsAre(c, s, s.g.stored.chain, s.g.empty.chain)
  {
    assert ListInv(c, s.g, Stored) && ListInv(c, s.g, Empty);
  }

  // ----- who gets an id

  /** Only the successful head CAS of a `next` can give a client an id it did not have. */
  lemma OnlyNextHandsOut<V>(c: Config, g: Shared<V>, t: nat, n: nat, pc: Pc<V>, ch: Choice<V>, i: nat)
    requires GInv(c, g, n) && PcInv(c, g, t, pc)
    ensures var (h, q) := Act(c, g, t, pc, ch);
            i in h.owner && h.owner[i] == ByClient && !(i in g.owner && g.owner[i] == ByClient) ==>
              pc.CasHead? && pc.op.NextOp? && pc.at == i && q.Idle? && h.empty.releases == g.empty.releases
  {
  }

  /** A thread that is not in a `next` or a `release`. */
  predicate SecondMode<V>(pc: Pc<V>) {
    match pc
    case Idle => true
    case LoadHead(op) => !op.NextOp?
    case LoadBlock(op, _, _, _) => !op.NextOp?
    case Publish(op, _, _, _) => !op.NextOp?
    case ReadNext(op, _, _, _) => !op.NextOp?
    case CasHead(op, _, _, _, _) => !op.NextOp?
    case SetPayload(_, _) => true
    case GetPayload(_, _, _) => true
    case RelHead(_, job) => !job.Releasing?
    case RelNext(_, job, _) => !job.Releasing?
    case RelCas(_, job, _) => !job.Releasing?
  }

  ghost predicate NoClients<V>(s: State<V>) {
    && (forall i: nat :: !WithClient(s, i))
    && (forall t :: 0 <= t < |s.pcs| ==> SecondMode(s.pcs[t]))
  }

  lemma StepKeepsNoClients<V>(c: Config, s: State<V>, t: nat, ch: Choice<V>)
    requires Inv(c, s) && t < |s.pcs| && NoClients(s) && PushPop(ch)
    ensures NoClients(Step(c, s, t, ch))
  {
    var s' := Step(c, s, t, ch);
    assert PcInv(c, s.g, t, s.pcs[t]);
    forall i: nat
      ensures !WithClient(s', i)
    {
      assert !WithClient(s, i);
      OnlyNextHandsOut(c, s.g, t, |s.pcs|, s.pcs[t], ch, i);
    }
    assert SecondMode(s'.pcs[t]);
  }

  lemma {:induction false} RunKeepsNoClients<V>(c: Config, s: State<V>, turns: seq<Turn<V>>)
    requires Inv(c, s) && Scheduled(turns, |s.pcs|) && OrderlyRun(c, s, turns)
    requires NoClients(s) && PushPopOnly(turns)
    ensures NoClients(Run(c, s, turns))
    decreases turns
  {
    if turns != [] {
      var t, ch := turns[0].t, turns[0].ch;
      assert PushPop(turns[0].ch);
      StepKeepsInv(c, s, t, ch);
      StepKeepsNoClients(c, s, t, ch);
      assert PushPopOnly(turns[1..]) by {
        assert forall k :: 0 <= k < |turns[1..]| ==> turns[1..][k] == turns[k + 1];
      }
      RunKeepsNoClients(c, Step(c, s, t, ch), turns[1..]);
    }
  }

  lemma InitNoClients<V>(c: Config, n: nat)
    requires c.Valid()
    ensures NoClients(Init<V>(c, n))
  {
  }

  /** As long as only `push` and `pop` are called, no id ever goes to a client; and when every call has ended,
      every id is on one of the two lists: a `pop` gives back what its `push` took. */
  lemma PushPopReturnsAllIds<V>(c: Config, n: nat, turns: seq<Turn<V>>)
    requires c.Valid() && Scheduled(turns, n) && OrderlyRun(c, Init(c, n), turns) && PushPopOnly(turns)
    ensures var s := Run(c, Init(c, n), turns);
            && (forall i: nat :: !WithClient(s, i))
            && ((forall t :: 0 <= t < n ==> s.pcs[t] == Idle) ==>
                  ListsAre(c, s, s.g.stored.chain, s.g.empty.chain)
                  && forall i: nat :: IsId(c, i) <==> i in s.g.stored.chain || i in s.g.empty.chain)
  {
    var s := Run(c, Init(c, n), turns);
    InitInv<V>(c, n);
    InitNoClients<V>(c, n);
    RunKeepsNoClients(c, Init(c, n), turns);
    ReachableInv(c, n, turns);
    InvLists(c, s);
    if forall t :: 0 <= t < n ==> s.pcs[t] == Idle {
      forall i: nat
        ensures IsId(c, i) <==> i in s.g.stored.chain || i in s.g.empty.chain
      {
        InvPartitions(c, s, i);
        assert !WithClient(s, i);
        forall t: nat
          ensures !HeldBy(s, t, i)
        {
          assert t < |s.pcs| ==> s.pcs[t] == Idle;
        }
      }
    }
  }

  // ----- a thread that is not disturbed

  lemma SoloKeepsInv<V>(c: Config, s: State<V>, t: nat, chs: seq<Choice<V>>)
    requires Inv(c, s) && OneBlock(c) && t < |s.pcs| && s.pcs[t] == Idle
    ensures var (h, q) := Solo(c, s.g, t, Idle, chs);
            && Scheduled(TurnsOf(t, chs), |s.pcs|)
            && Run(c, s, TurnsOf(t, chs)) == State(h, s.pcs[t := q])
            && Inv(c, State(h, s.pcs[t := q]))
  {
    SoloIsTimely(c, s, t, chs);
    OneBlockIsOrderly(c, s, TurnsOf(t, chs));
    RunKeepsInv(c, s, TurnsOf(t, chs));
    RunSolo(c, s, t, chs);
  }

  lemma HeadOf<V>(c: Config, g: Shared<V>, n: nat, l: ListId)
    requires GInv(c, g, n) && Get(g, l).chain != []
    ensures var x := Get(g, l).chain[0];
            && IsId(c, x) && Index(c.bits, Get(g, l).word) == x
            && (l.Stored? ==> x in g.next && BlockOf(c.sizes, x) in g.published && x in g.payload)
  {
    assert ListInv(c, g, l);
    assert Get(g, l).chain[0] in Get(g, l).chain;
  }

  lemma PushedState<V>(c: Config, g: Shared<V>, t: nat, x: nat, v: V)
    requires c.Valid() && OneBlock(c) && IsId(c, x) && g.empty.chain != [] && g.empty.chain[0] == x
    ensures var h := Filed(c, Taken(c, g, t, PushOp(v), x), x, v);
            && h.returned == g.returned && h.log == g.log + [Pushed(v)]
            && g.empty.chain == [x] + h.empty.chain && h.stored.chain == [x] + g.stored.chain
            && x in h.payload && h.payload[x] == v
  {
  }

  lemma PoppedState<V>(c: Config, g: Shared<V>, t: nat, x: nat, d: V)
    requires c.Valid() && OneBlock(c) && IsId(c, x) && g.stored.chain != [] && g.stored.chain[0] == x
    requires x in g.payload
    ensures var h := Fetched(c, Taken(c, g, t, PopOp(d), x), x, d, Payload(g, x, d));
            && h.returned == g.returned + [g.payload[x]]
            && g.stored.chain == [x] + h.stored.chain && h.empty.chain == [x] + g.empty.chain
  {
  }

  /** What thread t has done when nobody disturbed it: the run exists and ends in h, with every thread where it
      was. */
  ghost predicate Undisturbed<V>(c: Config, s: State<V>, t: nat, chs: seq<Choice<V>>, h: Shared<V>)
    requires c.Valid()
  {
    && Scheduled(TurnsOf(t, chs), |s.pcs|)
    && Run(c, s, TurnsOf(t, chs)) == State(h, s.pcs) && Inv(c, State(h, s.pcs))
  }

  lemma SoloCall<V>(c: Config, s: State<V>, t: nat, chs: seq<Choice<V>>, h: Shared<V>)
    requires Inv(c, s) && OneBlock(c) && t < |s.pcs| && s.pcs[t] == Idle && Solo(c, s.g, t, Idle, chs) == (h, Idle)
    ensures Undisturbed(c, s, t, chs, h)
  {
    SoloKeepsInv(c, s, t, chs);
    assert s.pcs[t := Idle] == s.pcs;
  }

  /** From any state the invariant allows, an undisturbed `push` with an id to be had stores its value on top. */
  lemma PushStores<V>(c: Config, s: State<V>, t: nat, v: V) returns (h: Shared<V>)
    requires Inv(c, s) && OneBlock(c) && t < |s.pcs| && s.pcs[t] == Idle && s.g.empty.chain != []
    ensures Undisturbed(c, s, t, PushCall(v), h)
    ensures h.returned == s.g.returned && h.log == s.g.log + [Pushed(v)]
    ensures var x := s.g.empty.chain[0];
            && s.g.empty.chain == [x] + h.empty.chain && h.stored.chain == [x] + s.g.stored.chain
            && x in h.payload && h.payload[x] == v
  {
    var x := s.g.empty.chain[0];
    var b := BlockOf(c.sizes, x);
    var g := if b in s.g.published then s.g else PublishBlock(c, s.g, b);
    HeadOf(c, s.g, |s.pcs|, Empty);
    PushSolo(c, s.g, t, x, v);
    PushedState(c, g, t, x, v);
    h := Filed(c, Taken(c, g, t, PushOp(v), x), x, v);
    SoloCall(c, s, t, PushCall(v), h);
  }

  /** An undisturbed `pop` takes the top value, and gives its id back to the empty list. */
  lemma PopFetches<V>(c: Config, s: State<V>, t: nat, d: V) returns (h: Shared<V>)
    requires Inv(c, s) && OneBlock(c) && t < |s.pcs| && s.pcs[t] == Idle && s.g.stored.chain != []
    ensures Undisturbed(c, s, t, PopCall(d), h)
    ensures var x := s.g.stored.chain[0];
            && x in s.g.payload && h.returned == s.g.returned + [s.g.payload[x]]
            && s.g.stored.chain == [x] + h.stored.chain && h.empty.chain == [x] + s.g.empty.chain
  {
    var x := s.g.stored.chain[0];
    HeadOf(c, s.g, |s.pcs|, Stored);
    PopSolo(c, s.g, t, x, d);
    PoppedState(c, s.g, t, x, d);
    h := Fetched(c, Taken(c, s.g, t, PopOp(d), x), x, d, Payload(s.g, x, d));
    SoloCall(c, s, t, PopCall(d), h);
  }

  /** A `pop` right after a `push` returns the value pushed and leaves both lists as they were. */
  lemma PopUndoesPush<V>(c: Config, s: State<V>, t: nat, v: V, d: V)
    requires Inv(c, s) && OneBlock(c) && t < |s.pcs| && s.pcs[t] == Idle && s.g.empty.chain != []
    ensures var turns := TurnsOf(t, PushCall(v)) + TurnsOf(t, PopCall(d));
            && Scheduled(turns, |s.pcs|)
            && var r := Run(c, s, turns);
               && r.g.returned == s.g.returned + [v] && r.pcs == s.pcs
               && r.g.stored.chain == s.g.stored.chain && r.g.empty.chain == s.g.empty.chain
  {
    var g := PushStores(c, s, t, v);
    var h := PopFetches(c, State(g, s.pcs), t, d);
    RunAppend(c, s, TurnsOf(t, PushCall(v)), TurnsOf(t, PopCall(d)));
  }

  // ----- `next` and `release`, whatever the blocks are

  ghost predicate OwnFirstMode<V>(chs: seq<Choice<V>>) {
    forall k :: 0 <= k < |chs| && chs[k].Begin? ==> chs[k].op.NextOp?
  }

  lemma {:induction false} SoloNextIsOrderly<V>(c: Config, s: State<V>, t: nat, chs: seq<Choice<V>>)
    requires c.Valid() && t < |s.pcs| && OwnTimely(s.g, s.pcs[t]) && FirstMode(s.pcs[t]) && OwnFirstMode(chs)
    ensures Scheduled(TurnsOf(t, chs), |s.pcs|) && OrderlyRun(c, s, TurnsOf(t, chs))
    decreases chs
  {
    TurnsScheduled(t, chs, |s.pcs|);
    if chs != [] {
      var s' := Step(c, s, t, chs[0]);
      assert TurnsOf(t, chs)[1..] == TurnsOf(t, chs[1..]);
      assert OwnTimely(s'.g, s'.pcs[t]) && FirstMode(s'.pcs[t]);
      SoloNextIsOrderly(c, s', t, chs[1..]);
    }
  }

  lemma SoloNextCall<V>(c: Config, s: State<V>, t: nat, chs: seq<Choice<V>>, h: Shared<V>)
    requires Inv(c, s) && t < |s.pcs| && s.pcs[t] == Idle && OwnFirstMode(chs)
    requires Solo(c, s.g, t, Idle, chs) == (h, Idle)
    ensures Undisturbed(c, s, t, chs, h)
  {
    SoloNextIsOrderly(c, s, t, chs);
    RunKeepsInv(c, s, TurnsOf(t, chs));
    RunSolo(c, s, t, chs);
    assert s.pcs[t := Idle] == s.pcs;
  }

  lemma AnyNextIsFirstMode<V>()
    ensures OwnFirstMode<V>(AnyNext())
  {
    var chs: seq<Choice<V>> := AnyNext();
    assert chs == [Begin(NextOp), Proceed, Proceed, Proceed, Proceed, Proceed];
  }

  lemma TakenState<V>(c: Config, g: Shared<V>, t: nat, x: nat)
    requires c.Valid() && g.empty.chain != [] && g.empty.chain[0] == x
    ensures var h := Taken(c, g, t, NextOp, x);
            && g.empty.chain == [x] + h.empty.chain && h.stored == g.stored
            && h.owner == g.owner[x := ByClient] && h.payload == g.payload && h.log == g.log
  {
  }

  lemma ReleasedState<V>(c: Config, g: Shared<V>, t: nat, i: nat)
    requires c.Valid()
    ensures var h := Released(c, g, t, i);
            && h.empty.chain == [i] + g.empty.chain && h.stored == g.stored
            && h.owner == g.owner[i := OnList(Empty)] && h.payload == g.payload && h.log == g.log
  {
  }

  /** An undisturbed `next` with an id to be had gives the client the head of the empty list. */
  lemma NextTakes<V>(c: Config, s: State<V>, t: nat) returns (h: Shared<V>)
    requires Inv(c, s) && t < |s.pcs| && s.pcs[t] == Idle && s.g.empty.chain != []
    ensures Undisturbed(c, s, t, AnyNext(), h)
    ensures var x := s.g.empty.chain[0];
            && s.g.empty.chain == [x] + h.empty.chain && h.stored == s.g.stored
            && h.owner == s.g.owner[x := ByClient] && h.payload == s.g.payload && h.log == s.g.log
  {
    var x := s.g.empty.chain[0];
    var b := BlockOf(c.sizes, x);
    var g := if b in s.g.published then s.g else PublishBlock(c, s.g, b);
    HeadOf(c, s.g, |s.pcs|, Empty);
    AnyNextSolo(c, s.g, t, x);
    TakenState(c, g, t, x);
    AnyNextIsFirstMode<V>();
    h := Taken(c, g, t, NextOp, x);
    SoloNextCall(c, s, t, AnyNext(), h);
  }

  /** An undisturbed `release` of a client's id puts it in front of the empty list. */
  lemma ReleaseStores<V>(c: Config, s: State<V>, t: nat, i: nat) returns (h: Shared<V>)
    requires Inv(c, s) && t < |s.pcs| && s.pcs[t] == Idle && WithClient(s, i)
    ensures Undisturbed(c, s, t, ReleaseCall(i), h)
    ensures h.empty.chain == [i] + s.g.empty.chain && h.stored == s.g.stored
    ensures h.owner == s.g.owner[i := OnList(Empty)] && h.payload == s.g.payload && h.log == s.g.log
  {
    ReleaseSolo(c, s.g, t, i);
    ReleasedState(c, s.g, t, i);
    h := Released(c, s.g, t, i);
    SoloNextCall(c, s, t, ReleaseCall(i), h);
  }

  lemma OwnedAgain(owner: map<nat, Place>, i: nat)
    requires i in owner && owner[i] == ByClient
    ensures owner[i := OnList(Empty)][i := ByClient] == owner
  {
  }

  /** Ids are reused at once: a `next` right after a `release` gives the client the same id back, and leaves
      both lists as they were. */
  lemma NextUndoesRelease<V>(c: Config, s: State<V>, t: nat, i: nat)
    requires Inv(c, s) && t < |s.pcs| && s.pcs[t] == Idle && WithClient(s, i)
    ensures var turns := TurnsOf(t, ReleaseCall(i)) + TurnsOf(t, AnyNext());
            && Scheduled(turns, |s.pcs|)
            && var r := Run(c, s, turns);
               && r.g.owner == s.g.owner && r.pcs == s.pcs
               && r.g.stored == s.g.stored && r.g.empty.chain == s.g.empty.chain
  {
    var g := ReleaseStores(c, s, t, i);
    var h := NextTakes(c, State(g, s.pcs), t);
    RunAppend(c, s, TurnsOf(t, ReleaseCall(i)), TurnsOf(t, AnyNext()));
    OwnedAgain(s.g.owner, i);
  }
}
