/** The invariant of the free list, and that every step of every thread keeps it. */
module FreeListSafety {
  import opened Bits
  import opened HeadWord
  import opened FreeList

  // ----- chains

  /** Following `next` from h visits exactly xs and then leaves the index range. */
  ghost predicate ChainFrom(next: map<nat, nat>, max: nat, h: nat, xs: seq<nat>)
    decreases xs
  {
    if xs == [] then h >= max
    else h == xs[0] && h < max && ChainFrom(next, max, Succ(next, h), xs[1..])
  }

  ghost predicate NoDup(xs: seq<nat>) {
    xs == [] || (xs[0] !in xs[1..] && NoDup(xs[1..]))
  }

  lemma {:induction false} ChainFrame(n1: map<nat, nat>, n2: map<nat, nat>, max: nat, h: nat, xs: seq<nat>)
    requires ChainFrom(n1, max, h, xs)
    requires forall i :: i in xs ==> Succ(n1, i) == Succ(n2, i)
    ensures ChainFrom(n2, max, h, xs)
    decreases xs
  {
    if xs != [] {
      ChainFrame(n1, n2, max, Succ(n1, h), xs[1..]);
    }
  }

  // ----- replaying the history on an ordinary stack

  datatype Option<T> = None | Some(value: T)

  /** One event on an ordinary stack, or None where that stack could not have done it. */
  function Apply<V(==)>(s: seq<V>, e: Event<V>): Option<seq<V>> {
    match e
    case Pushed(v) => Some([v] + s)
    case Popped(v) => if s != [] && s[0] == v then Some(s[1..]) else None
    case FoundEmpty => if s == [] then Some(s) else None
  }

  function Replay<V(==)>(log: seq<Event<V>>): Option<seq<V>> {
    if log == [] then Some([])
    else
      var before := Replay(log[..|log| - 1]);
      if before.None? then None else Apply(before.value, log[|log| - 1])
  }

  /** The values on the stored list, from its head. */
  function Values<V>(payload: map<nat, V>, xs: seq<nat>): seq<V>
    requires forall i :: i in xs ==> i in payload
  {
    if xs == [] then [] else [payload[xs[0]]] + Values(payload, xs[1..])
  }

  lemma {:induction false} ValuesFrame<V>(p1: map<nat, V>, p2: map<nat, V>, xs: seq<nat>)
    requires forall i :: i in xs ==> i in p1 && i in p2 && p1[i] == p2[i]
    ensures Values(p1, xs) == Values(p2, xs)
  {
    if xs != [] {
      ValuesFrame(p1, p2, xs[1..]);
    }
  }

  // ----- the invariant

  ghost predicate ListOk(c: Config, next: map<nat, nat>, owner: map<nat, Place>, l: ListId, lst: Lst)
    requires c.Valid()
  {
    && IsWord(lst.word)
    && Serial(c.bits, lst.word) == SerialAfter(c.bits, lst.releases)
    && ChainFrom(next, c.maxIndex, Index(c.bits, lst.word), lst.chain)
    && NoDup(lst.chain)
    && (forall i :: i in lst.chain <==> i in owner && owner[i] == OnList(l))
  }

  ghost predicate ListInv<V>(c: Config, g: Shared<V>, l: ListId)
    requires c.Valid()
  {
    ListOk(c, g.next, g.owner, l, Get(g, l))
  }

  ghost predicate MemInv<V>(c: Config, g: Shared<V>) {
    && (forall i :: i in g.next && i < c.maxIndex ==> g.next[i] < Pow2(c.bits))
    && (forall i: nat :: i < Total(c.sizes) && BlockOf(c.sizes, i) in g.published ==> i in g.next)
    && (forall i :: i in g.next ==> BlockOf(c.sizes, i) in g.published)
  }

  ghost predicate OwnerInv<V>(c: Config, g: Shared<V>, n: nat) {
    && (forall i :: i in g.owner <==> IsId(c, i))
    && (forall i :: i in g.owner && g.owner[i].ByThread? ==> g.owner[i].t < n)
    && (forall i :: i in g.owner && g.owner[i] != OnList(Empty) ==> i in g.next)
  }

  ghost predicate ValueInv<V>(g: Shared<V>) {
    && (forall i :: i in g.stored.chain ==> i in g.payload)
    && Replay(g.log) == Some(Values(g.payload, g.stored.chain))
  }

  ghost predicate GInv<V>(c: Config, g: Shared<V>, n: nat) {
    && c.Valid()
    && ListInv(c, g, Stored)
    && ListInv(c, g, Empty)
    && MemInv(c, g)
    && OwnerInv(c, g, n)
    && ValueInv(g)
  }

  /** What a thread knows about the head word it read, however long ago: as long as the list has seen no
      release since, the index it read is still the head or has left this list for good. */
  ghost predicate Snapshot<V>(c: Config, g: Shared<V>, l: ListId, id: nat, at: nat, ver: nat)
    requires c.Valid()
  {
    var lst := Get(g, l);
    && IsWord(id) && Index(c.bits, id) == at && IsId(c, at)
    && Serial(c.bits, id) == SerialAfter(c.bits, ver)
    && ver <= lst.releases
    && (l.Stored? ==> at in g.next)
    && (lst.releases == ver && at in lst.chain ==> lst.chain[0] == at)
  }

  ghost predicate JobInv<V>(g: Shared<V>, at: nat, job: Job<V>) {
    match job
    case Releasing => true
    case Pushing(v) => at in g.payload && g.payload[at] == v
    case Returning(ret, taken) => ret == taken
  }

  ghost predicate PcFacts<V>(c: Config, g: Shared<V>, pc: Pc<V>)
    requires c.Valid()
  {
    match pc
    case Idle => true
    case LoadHead(op) => true
    case LoadBlock(op, id, at, ver) => Snapshot(c, g, ListOf(op), id, at, ver)
    case Publish(op, id, at, ver) => Snapshot(c, g, ListOf(op), id, at, ver) && !op.PopOp?
    case ReadNext(op, id, at, ver) => Snapshot(c, g, ListOf(op), id, at, ver) && at in g.next
    case CasHead(op, id, at, ver, newid) =>
      && Snapshot(c, g, ListOf(op), id, at, ver) && at in g.next
      && IsWord(newid) && Serial(c.bits, newid) == Serial(c.bits, id)
      && (Get(g, ListOf(op)).releases == ver && at in Get(g, ListOf(op)).chain
          ==> Index(c.bits, newid) == Succ(g.next, at))
    case SetPayload(at, v) => true
    case GetPayload(at, d, taken) => at in g.payload && g.payload[at] == taken
    case RelHead(at, job) => JobInv(g, at, job)
    case RelNext(at, job, x) => JobInv(g, at, job) && IsWord(x)
    case RelCas(at, job, x) => JobInv(g, at, job) && IsWord(x) && Succ(g.next, at) == Index(c.bits, x)
  }

  /** A thread's facts, and that the ids recorded as its own are exactly the one its counter holds. */
  ghost predicate PcInv<V>(c: Config, g: Shared<V>, t: nat, pc: Pc<V>)
    requires c.Valid()
  {
    && PcFacts(c, g, pc)
    && (forall i :: Holds(pc, i) <==> i in g.owner && g.owner[i] == ByThread(t))
  }

  ghost predicate Inv<V>(c: Config, s: State<V>) {
    && GInv(c, s.g, |s.pcs|)
    && (forall t :: 0 <= t < |s.pcs| ==> PcInv(c, s.g, t, s.pcs[t]))
  }

  /** One thing a run has to grant: when a head CAS is tried, its list has seen fewer releases since the
      head was loaded than there are serials. */
  ghost predicate Timely<V>(c: Config, g: Shared<V>, pc: Pc<V>)
    requires c.Valid()
  {
    pc.CasHead? ==> Get(g, ListOf(pc.op)).releases - pc.ver < Serials(c.bits)
  }

  /** The other: `push` and `pop` only get ids whose index within their block is the id itself. */
  predicate Direct<V>(c: Config, pc: Pc<V>) {
    pc.SetPayload? || pc.GetPayload? ==> InnerOf(c.sizes, pc.at) == pc.at
  }

  ghost predicate Orderly<V>(c: Config, g: Shared<V>, pc: Pc<V>)
    requires c.Valid()
  {
    Timely(c, g, pc) && Direct(c, pc)
  }

  // ----- what the other threads may notice of a step by thread t

  ghost predicate ListRely(a: Lst, b: Lst) {
    && a.releases <= b.releases
    && (a.releases == b.releases ==> b.chain == a.chain || (a.chain != [] && b.chain == a.chain[1..]))
  }

  ghost predicate Rely<V>(g: Shared<V>, h: Shared<V>, t: nat) {
    && ListRely(g.stored, h.stored)
    && ListRely(g.empty, h.empty)
    && (forall i :: i in g.next ==> i in h.next)
    && (forall i :: i in g.owner && g.owner[i] != ByThread(t) ==> Succ(h.next, i) == Succ(g.next, i))
    && (forall i :: i in g.payload && (i in g.owner ==> g.owner[i] != ByThread(t))
                    ==> i in h.payload && h.payload[i] == g.payload[i])
    && (forall i, u :: u != t ==> ((i in h.owner && h.owner[i] == ByThread(u))
                                   <==> (i in g.owner && g.owner[i] == ByThread(u))))
  }

  lemma SnapshotStable<V>(c: Config, g: Shared<V>, h: Shared<V>, t: nat, l: ListId, id: nat, at: nat, ver: nat)
    requires c.Valid() && ListInv(c, g, l)
    requires Snapshot(c, g, l, id, at, ver) && Rely(g, h, t)
    ensures Snapshot(c, h, l, id, at, ver)
    ensures Get(h, l).releases == ver && at in Get(h, l).chain
            ==> Get(g, l).releases == ver && at in Get(g, l).chain && Succ(h.next, at) == Succ(g.next, at)
  {
    assert ListRely(Get(g, l), Get(h, l));
  }

  /** No thread's facts are disturbed by a step of another thread. */
  lemma PcStable<V>(c: Config, g: Shared<V>, h: Shared<V>, t: nat, u: nat, pc: Pc<V>, n: nat)
    requires GInv(c, g, n) && PcInv(c, g, u, pc) && Rely(g, h, t) && u != t
    ensures PcInv(c, h, u, pc)
  {
    if pc.LoadBlock? || pc.Publish? || pc.ReadNext? || pc.CasHead? {
      SnapshotStable(c, g, h, t, ListOf(pc.op), pc.id, pc.at, pc.ver);
    } else if pc.SetPayload? || pc.GetPayload? || pc.RelHead? || pc.RelNext? || pc.RelCas? {
      assert Holds(pc, pc.at);
    }
  }

  // ----- each kind of step keeps the invariant

  ghost predicate Kept<V>(c: Config, g: Shared<V>, t: nat, n: nat, r: (Shared<V>, Pc<V>)) {
    && GInv(c, r.0, n)
    && PcInv(c, r.0, t, r.1)
    && Rely(g, r.0, t)
  }

  /** A step that touches no shared memory only has to establish its own new facts. */
  lemma LocalKeeps<V>(c: Config, g: Shared<V>, t: nat, n: nat, pc: Pc<V>, pc': Pc<V>)
    requires GInv(c, g, n) && PcInv(c, g, t, pc) && PcFacts(c, g, pc')
    requires forall i :: Holds(pc, i) <==> Holds(pc', i)
    ensures Kept(c, g, t, n, (g, pc'))
  {
  }

  lemma ReplayAppend<V>(log: seq<Event<V>>, e: Event<V>)
    ensures Replay(log + [e]) == if Replay(log).None? then None else Apply(Replay(log).value, e)
  {
    assert (log + [e])[..|log|] == log;
  }

  lemma ClaimList<V>(c: Config, g: Shared<V>, t: nat, id: nat, l: ListId)
    requires c.Valid() && ListInv(c, g, l) && id in g.owner && g.owner[id] == ByClient
    ensures ListInv(c, Claim(g, t, id), l)
  {
  }

  lemma ClaimKeeps<V>(c: Config, g: Shared<V>, t: nat, n: nat, id: nat)
    requires GInv(c, g, n) && t < n
    requires id in g.owner && g.owner[id] == ByClient
    ensures GInv(c, Claim(g, t, id), n) && Rely(g, Claim(g, t, id), t)
  {
    ClaimList(c, g, t, id, Stored);
    ClaimList(c, g, t, id, Empty);
  }

  lemma ClaimPc<V>(c: Config, g: Shared<V>, t: nat, n: nat, id: nat)
    requires GInv(c, g, n) && PcInv(c, g, t, Idle) && t < n
    requires id in g.owner && g.owner[id] == ByClient
    ensures Kept(c, g, t, n, (Claim(g, t, id), RelHead(id, Releasing)))
  {
    ClaimKeeps(c, g, t, n, id);
    var idle: Pc<V> := Idle;
    assert forall i :: !Holds(idle, i);
  }

  lemma IdleKeeps<V>(c: Config, g: Shared<V>, t: nat, n: nat, ch: Choice<V>)
    requires GInv(c, g, n) && PcInv(c, g, t, Idle) && t < n
    ensures Kept(c, g, t, n, Act(c, g, t, Idle, ch))
  {
    if ch.Release? && ch.id in g.owner && g.owner[ch.id] == ByClient {
      ClaimPc(c, g, t, n, ch.id);
    } else {
      LocalKeeps(c, g, t, n, Idle, Act(c, g, t, Idle, ch).1);
    }
  }

  /** `next4list` leaves with -1 only when the list it reads is empty at that load. */
  lemma GiveUpMeansEmpty<V>(c: Config, g: Shared<V>, n: nat, op: Op<V>)
    requires GInv(c, g, n)
    ensures var at := Index(c.bits, Get(g, ListOf(op)).word);
            (at < c.initial || at >= c.maxIndex || BlockOf(c.sizes, at) < 0) <==> Get(g, ListOf(op)).chain == []
    ensures Act(c, g, 0, LoadHead(op), Proceed).1 == Idle <==> Get(g, ListOf(op)).chain == []
  {
    var lst := Get(g, ListOf(op));
    var at := Index(c.bits, lst.word);
    assert ListInv(c, g, ListOf(op));
    if lst.chain != [] {
      assert at in lst.chain && IsId(c, at);
      BlockOfTotal(c.sizes, at);
    }
  }

  lemma GiveUpKeeps<V>(c: Config, g: Shared<V>, t: nat, n: nat, op: Op<V>)
    requires GInv(c, g, n) && (op.PopOp? ==> g.stored.chain == [])
    ensures GInv(c, GiveUp(g, op), n) && Rely(g, GiveUp(g, op), t)
  {
    ReplayAppend(g.log, FoundEmpty);
    assert ListInv(c, GiveUp(g, op), Stored);
    assert ListInv(c, GiveUp(g, op), Empty);
  }

  lemma LoadHeadFails<V>(c: Config, g: Shared<V>, t: nat, n: nat, op: Op<V>)
    requires GInv(c, g, n) && PcInv(c, g, t, LoadHead(op)) && Get(g, ListOf(op)).chain == []
    ensures Kept(c, g, t, n, (GiveUp(g, op), Idle))
  {
    GiveUpKeeps(c, g, t, n, op);
    var loading: Pc<V> := LoadHead(op);
    assert forall i :: !Holds(loading, i);
  }

  lemma LoadHeadSucceeds<V>(c: Config, g: Shared<V>, t: nat, n: nat, op: Op<V>)
    requires GInv(c, g, n) && PcInv(c, g, t, LoadHead(op)) && Get(g, ListOf(op)).chain != []
    ensures var lst := Get(g, ListOf(op));
            Kept(c, g, t, n, (g, LoadBlock(op, lst.word, Index(c.bits, lst.word), lst.releases)))
  {
    var lst := Get(g, ListOf(op));
    assert ListInv(c, g, ListOf(op));
    assert lst.chain[0] in lst.chain;
    LocalKeeps(c, g, t, n, LoadHead(op), LoadBlock(op, lst.word, Index(c.bits, lst.word), lst.releases));
  }

  lemma LoadHeadKeeps<V>(c: Config, g: Shared<V>, t: nat, n: nat, op: Op<V>, ch: Choice<V>)
    requires GInv(c, g, n) && PcInv(c, g, t, LoadHead(op))
    ensures Kept(c, g, t, n, Act(c, g, t, LoadHead(op), ch))
  {
    GiveUpMeansEmpty(c, g, n, op);
    if Get(g, ListOf(op)).chain == [] {
      LoadHeadFails(c, g, t, n, op);
    } else {
      LoadHeadSucceeds(c, g, t, n, op);
    }
  }

  lemma LoadBlockKeeps<V>(c: Config, g: Shared<V>, t: nat, n: nat, pc: Pc<V>, ch: Choice<V>)
    requires pc.LoadBlock? && GInv(c, g, n) && PcInv(c, g, t, pc)
    ensures Kept(c, g, t, n, Act(c, g, t, pc, ch))
    ensures pc.op.PopOp? ==> Act(c, g, t, pc, ch).1.ReadNext?
  {
    LocalKeeps(c, g, t, n, pc, Act(c, g, t, pc, ch).1);
  }

  // publishing a block

  lemma PublishIsSilent<V>(c: Config, g: Shared<V>, b: int, i: nat)
    requires MemInv(c, g) && b !in g.published
    ensures Succ(PublishBlock(c, g, b).next, i) == Succ(g.next, i)
  {
  }

  lemma PublishMem<V>(c: Config, g: Shared<V>, b: int)
    requires c.Valid() && MemInv(c, g) && b !in g.published
    ensures MemInv(c, PublishBlock(c, g, b))
  {
  }

  lemma PublishList<V>(c: Config, g: Shared<V>, b: int, l: ListId)
    requires c.Valid() && MemInv(c, g) && ListInv(c, g, l) && b !in g.published
    ensures ListInv(c, PublishBlock(c, g, b), l)
  {
    var h, lst := PublishBlock(c, g, b), Get(g, l);
    forall i | i in lst.chain ensures Succ(h.next, i) == Succ(g.next, i) {
      PublishIsSilent(c, g, b, i);
    }
    ChainFrame(g.next, h.next, c.maxIndex, Index(c.bits, lst.word), lst.chain);
  }

  lemma PublishRely<V>(c: Config, g: Shared<V>, t: nat, b: int)
    requires MemInv(c, g) && b !in g.published
    ensures Rely(g, PublishBlock(c, g, b), t)
  {
    forall i: nat ensures Succ(PublishBlock(c, g, b).next, i) == Succ(g.next, i) {
      PublishIsSilent(c, g, b, i);
    }
  }

  lemma PublishAll<V>(c: Config, g: Shared<V>, t: nat, n: nat, b: int)
    requires GInv(c, g, n) && b !in g.published
    ensures GInv(c, PublishBlock(c, g, b), n) && Rely(g, PublishBlock(c, g, b), t)
  {
    PublishMem(c, g, b);
    PublishList(c, g, b, Stored);
    PublishList(c, g, b, Empty);
    PublishRely(c, g, t, b);
  }

  /** Two threads may race to publish a block: the second changes nothing, and both then find the element. */
  lemma PublishKeeps<V>(c: Config, g: Shared<V>, t: nat, n: nat, pc: Pc<V>, ch: Choice<V>)
    requires pc.Publish? && GInv(c, g, n) && PcInv(c, g, t, pc)
    ensures Kept(c, g, t, n, Act(c, g, t, pc, ch))
  {
    var pc' := Act(c, g, t, pc, ch).1;
    if BlockOf(c.sizes, pc.at) in g.published {
      LocalKeeps(c, g, t, n, pc, pc');
    } else {
      BlockOfTotal(c.sizes, pc.at);
      PublishAll(c, g, t, n, BlockOf(c.sizes, pc.at));
      PublishedPc(c, g, t, pc, pc');
    }
  }

  /** The publisher's own facts after publishing. */
  lemma PublishedPc<V>(c: Config, g: Shared<V>, t: nat, pc: Pc<V>, pc': Pc<V>)
    requires pc.Publish? && c.Valid() && MemInv(c, g) && PcInv(c, g, t, pc)
    requires BlockOf(c.sizes, pc.at) >= 0 && pc.at < Total(c.sizes)
    requires pc' == ReadNext(pc.op, pc.id, pc.at, pc.ver)
    ensures PcInv(c, PublishBlock(c, g, BlockOf(c.sizes, pc.at)), t, pc')
  {
  }

  lemma ReadNextKeeps<V>(c: Config, g: Shared<V>, t: nat, n: nat, pc: Pc<V>, ch: Choice<V>)
    requires pc.ReadNext? && GInv(c, g, n) && PcInv(c, g, t, pc)
    ensures Kept(c, g, t, n, Act(c, g, t, pc, ch))
  {
    RelinkParts(c.bits, Succ(g.next, pc.at), pc.id);
    LocalKeeps(c, g, t, n, pc, Act(c, g, t, pc, ch).1);
  }

  lemma SetPayloadKeeps<V>(c: Config, g: Shared<V>, t: nat, n: nat, pc: Pc<V>, ch: Choice<V>)
    requires pc.SetPayload? && Direct(c, pc) && GInv(c, g, n) && PcInv(c, g, t, pc)
    ensures Kept(c, g, t, n, Act(c, g, t, pc, ch))
  {
    var p := g.payload[pc.at := pc.v];
    assert Holds(pc, pc.at);
    assert ListInv(c, g.(payload := p), Stored);
    assert ListInv(c, g.(payload := p), Empty);
    ValuesFrame(g.payload, p, g.stored.chain);
  }

  lemma GetPayloadKeeps<V>(c: Config, g: Shared<V>, t: nat, n: nat, pc: Pc<V>, ch: Choice<V>)
    requires pc.GetPayload? && Direct(c, pc) && GInv(c, g, n) && PcInv(c, g, t, pc)
    ensures Kept(c, g, t, n, Act(c, g, t, pc, ch))
  {
    assert Holds(pc, pc.at);
    LocalKeeps(c, g, t, n, pc, Act(c, g, t, pc, ch).1);
  }

  lemma RelHeadKeeps<V>(c: Config, g: Shared<V>, t: nat, n: nat, pc: Pc<V>, ch: Choice<V>)
    requires pc.RelHead? && GInv(c, g, n) && PcInv(c, g, t, pc)
    ensures Kept(c, g, t, n, Act(c, g, t, pc, ch))
  {
    assert ListInv(c, g, Target(pc.job));
    LocalKeeps(c, g, t, n, pc, Act(c, g, t, pc, ch).1);
  }

  /** A list does not change with the `_next` of an id that is on neither list. */
  lemma RelinkedList<V>(c: Config, g: Shared<V>, t: nat, at: nat, next: map<nat, nat>, l: ListId)
    requires c.Valid() && ListInv(c, g, l) && at in g.owner && g.owner[at] == ByThread(t)
    requires forall i :: i != at ==> Succ(next, i) == Succ(g.next, i)
    ensures ListInv(c, g.(next := next), l)
  {
    ChainFrame(g.next, next, c.maxIndex, Index(c.bits, Get(g, l).word), Get(g, l).chain);
  }

  lemma RelNextKeeps<V>(c: Config, g: Shared<V>, t: nat, n: nat, pc: Pc<V>, ch: Choice<V>)
    requires pc.RelNext? && GInv(c, g, n) && PcInv(c, g, t, pc)
    ensures Kept(c, g, t, n, Act(c, g, t, pc, ch))
  {
    var next := g.next[pc.at := Index(c.bits, pc.x)];
    assert Holds(pc, pc.at);
    IndexRange(c.bits, pc.x);
    RelinkedList(c, g, t, pc.at, next, Stored);
    RelinkedList(c, g, t, pc.at, next, Empty);
  }

  // popping

  /** If the head CAS succeeds on a timely snapshot, the index it removes is the head right now and the
      successor it installs is the one that follows right now: the ABA hazard cannot occur. */
  lemma PopIsCurrent<V>(c: Config, g: Shared<V>, t: nat, n: nat, pc: Pc<V>)
    requires pc.CasHead? && GInv(c, g, n) && PcInv(c, g, t, pc) && Timely(c, g, pc)
    requires Get(g, ListOf(pc.op)).word == pc.id
    ensures Get(g, ListOf(pc.op)).chain != [] && Get(g, ListOf(pc.op)).chain[0] == pc.at
    ensures Index(c.bits, pc.newid) == g.next[pc.at] && pc.at in g.next
    ensures Serial(c.bits, pc.newid) == Serial(c.bits, pc.id) && IsWord(pc.newid)
  {
    var lst := Get(g, ListOf(pc.op));
    assert ListInv(c, g, ListOf(pc.op));
    SameSerial(c.bits, pc.ver, lst.releases);
    assert lst.releases == pc.ver;
  }

  /** The head CAS is about to pop `at`, and installs its current successor under an unchanged serial. */
  ghost predicate PopReady<V>(c: Config, g: Shared<V>, op: Op<V>, at: nat, newid: nat)
    requires c.Valid()
  {
    var lst := Get(g, ListOf(op));
    && lst.chain != [] && lst.chain[0] == at && at in g.next
    && IsWord(newid) && Index(c.bits, newid) == g.next[at]
    && Serial(c.bits, newid) == SerialAfter(c.bits, lst.releases)
  }

  lemma PopList<V>(c: Config, g: Shared<V>, t: nat, op: Op<V>, at: nat, newid: nat, l: ListId)
    requires c.Valid() && ListInv(c, g, l) && ListInv(c, g, ListOf(op)) && PopReady(c, g, op, at, newid)
    ensures ListInv(c, PopCommit(g, t, op, at, newid), l)
  {
    var h := PopCommit(g, t, op, at, newid);
    var xs, ys := Get(g, l).chain, Get(h, l).chain;
    assert at in Get(g, ListOf(op)).chain;
    if l == ListOf(op) {
      assert xs == [at] + ys;
    }
  }

  lemma PopOwner<V>(c: Config, g: Shared<V>, t: nat, n: nat, op: Op<V>, at: nat, newid: nat)
    requires GInv(c, g, n) && PopReady(c, g, op, at, newid) && t < n
    ensures OwnerInv(c, PopCommit(g, t, op, at, newid), n) && MemInv(c, PopCommit(g, t, op, at, newid))
  {
    assert at in Get(g, ListOf(op)).chain;
    assert ListInv(c, g, ListOf(op));
  }

  lemma PopValue<V>(c: Config, g: Shared<V>, t: nat, op: Op<V>, at: nat, newid: nat)
    requires c.Valid() && ValueInv(g) && PopReady(c, g, op, at, newid)
    ensures ValueInv(PopCommit(g, t, op, at, newid))
    ensures op.PopOp? ==> at in g.payload && Values(g.payload, g.stored.chain)[0] == g.payload[at]
  {
    if op.PopOp? {
      assert at in g.stored.chain;
      ReplayAppend(g.log, Popped(g.payload[at]));
    }
  }

  lemma PopRely<V>(c: Config, g: Shared<V>, t: nat, op: Op<V>, at: nat, newid: nat)
    requires c.Valid() && ListInv(c, g, ListOf(op)) && PopReady(c, g, op, at, newid)
    ensures Rely(g, PopCommit(g, t, op, at, newid), t)
  {
    assert at in Get(g, ListOf(op)).chain;
  }

  lemma PopPc<V>(c: Config, g: Shared<V>, t: nat, op: Op<V>, at: nat, newid: nat, pc: Pc<V>)
    requires c.Valid() && ListInv(c, g, ListOf(op)) && PopReady(c, g, op, at, newid) && ValueInv(g)
    requires PcInv(c, g, t, pc) && pc.CasHead?
    ensures PcInv(c, PopCommit(g, t, op, at, newid), t, AfterPop(g, op, at))
  {
    assert at in Get(g, ListOf(op)).chain;
    assert forall i :: !Holds(pc, i);
  }

  lemma CasHeadKeeps<V>(c: Config, g: Shared<V>, t: nat, n: nat, pc: Pc<V>, ch: Choice<V>)
    requires pc.CasHead? && GInv(c, g, n) && PcInv(c, g, t, pc) && Timely(c, g, pc) && t < n
    ensures Kept(c, g, t, n, Act(c, g, t, pc, ch))
  {
    if ch.Spurious? || Get(g, ListOf(pc.op)).word != pc.id {
      LocalKeeps(c, g, t, n, pc, LoadHead(pc.op));
    } else {
      PopIsCurrent(c, g, t, n, pc);
      assert ListInv(c, g, ListOf(pc.op));
      PopList(c, g, t, pc.op, pc.at, pc.newid, Stored);
      PopList(c, g, t, pc.op, pc.at, pc.newid, Empty);
      PopOwner(c, g, t, n, pc.op, pc.at, pc.newid);
      PopValue(c, g, t, pc.op, pc.at, pc.newid);
      PopRely(c, g, t, pc.op, pc.at, pc.newid);
      PopPc(c, g, t, pc.op, pc.at, pc.newid, pc);
    }
  }

  // releasing

  /** The release CAS is about to push `at`, whose successor was set to the head it replaces. */
  ghost predicate ReleaseReady<V>(c: Config, g: Shared<V>, t: nat, at: nat, job: Job<V>, x: nat)
    requires c.Valid()
  {
    && Get(g, Target(job)).word == x && Succ(g.next, at) == Index(c.bits, x)
    && at in g.owner && g.owner[at] == ByThread(t) && JobInv(g, at, job)
  }

  lemma PushOnList(c: Config, next: map<nat, nat>, owner: map<nat, Place>, l: ListId, lst: Lst, at: nat)
    requires c.Valid() && ListOk(c, next, owner, l, lst)
    requires at in owner && owner[at] != OnList(l) && at < c.maxIndex
    requires Succ(next, at) == Index(c.bits, lst.word)
    ensures ListOk(c, next, owner[at := OnList(l)], l,
                   Lst(IncrementSerial(c.bits, lst.word, at), [at] + lst.chain, lst.releases + 1))
  {
    IncrementSerialParts(c.bits, lst.word, at);
    IndexOfSmall(c.bits, at);
    PushOnChain(next, c.maxIndex, lst.chain, at);
  }

  lemma PushOnChain(next: map<nat, nat>, max: nat, xs: seq<nat>, at: nat)
    requires ChainFrom(next, max, Succ(next, at), xs) && NoDup(xs) && at !in xs && at < max
    ensures ChainFrom(next, max, at, [at] + xs) && NoDup([at] + xs)
  {
    assert ([at] + xs)[1..] == xs;
  }

  lemma ReleaseList<V>(c: Config, g: Shared<V>, t: nat, at: nat, job: Job<V>, x: nat, l: ListId)
    requires c.Valid() && ListInv(c, g, l) && ReleaseReady(c, g, t, at, job, x) && at < c.maxIndex
    ensures ListInv(c, ReleaseCommit(c, g, at, job, x), l)
  {
    if l == Target(job) {
      PushOnList(c, g.next, g.owner, l, Get(g, l), at);
    }
  }

  lemma ReleaseOwner<V>(c: Config, g: Shared<V>, t: nat, n: nat, at: nat, job: Job<V>, x: nat)
    requires GInv(c, g, n) && ReleaseReady(c, g, t, at, job, x)
    ensures OwnerInv(c, ReleaseCommit(c, g, at, job, x), n) && MemInv(c, ReleaseCommit(c, g, at, job, x))
  {
  }

  lemma ReleaseValue<V>(c: Config, g: Shared<V>, t: nat, at: nat, job: Job<V>, x: nat)
    requires c.Valid() && ValueInv(g) && ReleaseReady(c, g, t, at, job, x)
    ensures ValueInv(ReleaseCommit(c, g, at, job, x))
  {
    if job.Pushing? {
      ReplayAppend(g.log, Pushed(job.v));
      assert ([at] + g.stored.chain)[1..] == g.stored.chain;
    }
  }

  lemma ReleaseRely<V>(c: Config, g: Shared<V>, t: nat, at: nat, job: Job<V>, x: nat)
    requires c.Valid() && ReleaseReady(c, g, t, at, job, x)
    ensures Rely(g, ReleaseCommit(c, g, at, job, x), t)
  {
  }

  lemma ReleaseKeeps<V>(c: Config, g: Shared<V>, t: nat, n: nat, at: nat, job: Job<V>, x: nat)
    requires GInv(c, g, n) && ReleaseReady(c, g, t, at, job, x)
    ensures GInv(c, ReleaseCommit(c, g, at, job, x), n)
    ensures Rely(g, ReleaseCommit(c, g, at, job, x), t)
  {
    ReleaseList(c, g, t, at, job, x, Stored);
    ReleaseList(c, g, t, at, job, x, Empty);
    ReleaseOwner(c, g, t, n, at, job, x);
    ReleaseValue(c, g, t, at, job, x);
    ReleaseRely(c, g, t, at, job, x);
  }

  lemma ReleasePc<V>(c: Config, g: Shared<V>, t: nat, pc: Pc<V>)
    requires c.Valid() && PcInv(c, g, t, pc) && pc.RelCas?
    ensures PcInv(c, ReleaseCommit(c, g, pc.at, pc.job, pc.x), t, Idle)
  {
    assert Holds(pc, pc.at);
    var idle: Pc<V> := Idle;
    assert forall i :: !Holds(idle, i);
  }

  lemma RelCasKeeps<V>(c: Config, g: Shared<V>, t: nat, n: nat, pc: Pc<V>, ch: Choice<V>)
    requires pc.RelCas? && GInv(c, g, n) && PcInv(c, g, t, pc)
    ensures Kept(c, g, t, n, Act(c, g, t, pc, ch))
  {
    assert Holds(pc, pc.at);
    if ch.Spurious? || Get(g, Target(pc.job)).word != pc.x {
      LocalKeeps(c, g, t, n, pc, RelHead(pc.at, pc.job));
    } else {
      ReleaseKeeps(c, g, t, n, pc.at, pc.job, pc.x);
      ReleasePc(c, g, t, pc);
    }
  }

  // ----- whole steps and whole runs

  lemma ActKeeps<V>(c: Config, g: Shared<V>, t: nat, n: nat, pc: Pc<V>, ch: Choice<V>)
    requires GInv(c, g, n) && PcInv(c, g, t, pc) && Orderly(c, g, pc) && t < n
    ensures Kept(c, g, t, n, Act(c, g, t, pc, ch))
  {
    match pc
    case Idle => IdleKeeps(c, g, t, n, ch);
    case LoadHead(op) => LoadHeadKeeps(c, g, t, n, op, ch);
    case LoadBlock(_, _, _, _) => LoadBlockKeeps(c, g, t, n, pc, ch);
    case Publish(_, _, _, _) => PublishKeeps(c, g, t, n, pc, ch);
    case ReadNext(_, _, _, _) => ReadNextKeeps(c, g, t, n, pc, ch);
    case CasHead(_, _, _, _, _) => CasHeadKeeps(c, g, t, n, pc, ch);
    case SetPayload(_, _) => SetPayloadKeeps(c, g, t, n, pc, ch);
    case GetPayload(_, _, _) => GetPayloadKeeps(c, g, t, n, pc, ch);
    case RelHead(_, _) => RelHeadKeeps(c, g, t, n, pc, ch);
    case RelNext(_, _, _) => RelNextKeeps(c, g, t, n, pc, ch);
    case RelCas(_, _, _) => RelCasKeeps(c, g, t, n, pc, ch);
  }

  /** Every orderly step of every thread keeps the invariant. */
  lemma StepKeepsInv<V>(c: Config, s: State<V>, t: nat, ch: Choice<V>)
    requires Inv(c, s) && t < |s.pcs| && Orderly(c, s.g, s.pcs[t])
    ensures Inv(c, Step(c, s, t, ch))
  {
    var (h, pc') := Act(c, s.g, t, s.pcs[t], ch);
    ActKeeps(c, s.g, t, |s.pcs|, s.pcs[t], ch);
    var pcs := s.pcs[t := pc'];
    forall u | 0 <= u < |pcs| ensures PcInv(c, h, u, pcs[u]) {
      if u != t {
        PcStable(c, s.g, h, t, u, s.pcs[u], |s.pcs|);
      }
    }
  }
}
