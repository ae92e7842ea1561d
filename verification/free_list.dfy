/** The lock-free free list as a step system: any number of threads, one atomic access per step. */
module FreeList {
  import opened Bits
  import opened HeadWord

  // ----- constants and the block table

  /** The template's constants, with `_maxIndex` already computed by the constructor. */
  datatype Config = Config(bits: nat, initial: nat, maxIndex: nat, sizes: seq<nat>) {
    ghost predicate Valid() {
      && bits < WORD_BITS
      && initial < maxIndex <= Pow2(bits) - 1 <= Total(sizes)
    }
  }

  function Total(sizes: seq<nat>): nat {
    if sizes == [] then 0 else sizes[0] + Total(sizes[1..])
  }

  /** The block an index falls in, or -1. */
  function BlockOf(sizes: seq<nat>, x: nat): (b: int)
    ensures -1 <= b < |sizes|
  {
    if sizes == [] then -1
    else if x < sizes[0] then 0
    else
      var b := BlockOf(sizes[1..], x - sizes[0]);
      if b < 0 then -1 else b + 1
  }

  /** What `blockfor` leaves in its reference argument: the index within the block. */
  function InnerOf(sizes: seq<nat>, x: nat): nat {
    if sizes == [] || x < sizes[0] then x else InnerOf(sizes[1..], x - sizes[0])
  }

  /** Where block b starts. */
  function Offset(sizes: seq<nat>, b: nat): nat
    requires b <= |sizes|
  {
    if b == 0 then 0 else sizes[0] + Offset(sizes[1..], b - 1)
  }

  lemma {:induction false} OffsetStep(sizes: seq<nat>, b: nat)
    requires b < |sizes|
    ensures Offset(sizes, b + 1) == Offset(sizes, b) + sizes[b]
  {
    if b > 0 {
      OffsetStep(sizes[1..], b - 1);
    }
  }

  /** `BlockOf` finds the one block whose range of indices holds x. */
  lemma {:induction false} BlockOfFinds(sizes: seq<nat>, x: nat, b: nat)
    requires b < |sizes|
    ensures BlockOf(sizes, x) == b <==> Offset(sizes, b) <= x < Offset(sizes, b) + sizes[b]
  {
    if b > 0 && x >= sizes[0] {
      BlockOfFinds(sizes[1..], x - sizes[0], b - 1);
    }
  }

  lemma {:induction false} BlockOfTotal(sizes: seq<nat>, x: nat)
    ensures BlockOf(sizes, x) >= 0 <==> x < Total(sizes)
  {
    if sizes != [] && x >= sizes[0] {
      BlockOfTotal(sizes[1..], x - sizes[0]);
    }
  }

  lemma {:induction false} InnerIsOffset(sizes: seq<nat>, x: nat, b: nat)
    requires b <= |sizes| && Offset(sizes, b) <= x && (b < |sizes| ==> x < Offset(sizes, b) + sizes[b])
    ensures InnerOf(sizes, x) == x - Offset(sizes, b)
  {
    if b > 0 {
      OffsetGrows(sizes, 1, b);
      InnerIsOffset(sizes[1..], x - sizes[0], b - 1);
    }
  }

  lemma {:induction false} OffsetGrows(sizes: seq<nat>, a: nat, b: nat)
    requires a <= b <= |sizes|
    ensures Offset(sizes, a) <= Offset(sizes, b)
  {
    if a < b {
      OffsetGrows(sizes, a, b - 1);
      OffsetStep(sizes, b - 1);
    }
  }

  lemma {:induction false} OffsetOfAll(sizes: seq<nat>)
    ensures Offset(sizes, |sizes|) == Total(sizes)
  {
    if sizes != [] {
      OffsetOfAll(sizes[1..]);
    }
  }

  /** `blockfor`: the block of an index, and the index inside that block. */
  method BlockFor(sizes: seq<nat>, x: nat) returns (b: int, inner: nat)
    ensures b == BlockOf(sizes, x) && inner == InnerOf(sizes, x)
    ensures b >= 0 ==> inner < sizes[b] && x == Offset(sizes, b) + inner
    ensures b < 0 ==> x >= Total(sizes)
  {
    inner := x;
    var i := 0;
    while i < |sizes|
      invariant 0 <= i <= |sizes| && x == Offset(sizes, i) + inner
    {
      if inner < sizes[i] {
        BlockOfFinds(sizes, x, i);
        InnerIsOffset(sizes, x, i);
        return i, inner;
      }
      OffsetStep(sizes, i);
      inner := inner - sizes[i];
      i := i + 1;
    }
    OffsetOfAll(sizes);
    InnerIsOffset(sizes, x, |sizes|);
    BlockOfTotal(sizes, x);
    return -1, inner;
  }

  /** `allocate`: a new block's elements, each naming the next index of the whole pool. */
  method Allocate(offset: nat, size: nat) returns (v: array<nat>)
    ensures fresh(v) && v.Length == size
    ensures forall i :: 0 <= i < size ==> v[i] == offset + i + 1
  {
    v := new nat[size];
    var i := 0;
    while i < size
      invariant 0 <= i <= size
      invariant forall j :: 0 <= j < i ==> v[j] == offset + j + 1
    {
      v[i] := offset + i + 1;
      i := i + 1;
    }
  }

  /** What `Allocate` fills in for a block is what publishing it makes readable at the block's indices. */
  lemma ElementsOfBlock(c: Config, b: nat, i: nat)
    requires b < |c.sizes| && i < c.sizes[b] && Offset(c.sizes, b) + i < Total(c.sizes)
    ensures var x := Offset(c.sizes, b) + i;
            x in Elements(c, b) && Elements(c, b)[x] == Offset(c.sizes, b) + i + 1
  {
    BlockOfFinds(c.sizes, Offset(c.sizes, b) + i, b);
  }

  // ----- state

  datatype ListId = Stored | Empty

  datatype Place = OnList(l: ListId) | ByClient | ByThread(t: nat)

  /** A list's head word, and two history variables: the ids on the list from the head, and its releases so far. */
  datatype Lst = Lst(word: nat, chain: seq<nat>, releases: nat)

  /** What an operation did to the stack of values at the moment it took effect. */
  datatype Event<V> = Pushed(v: V) | Popped(v: V) | FoundEmpty

  /** Shared memory. `owner`, `log` and `returned` are history variables: no step reads them, except that a
      client may release only ids recorded as its own. */
  datatype Shared<V> = Shared(
    stored: Lst, empty: Lst,
    published: set<int>, next: map<nat, nat>, payload: map<nat, V>,
    owner: map<nat, Place>, log: seq<Event<V>>, returned: seq<V>)

  datatype Op<V> = NextOp | PushOp(v: V) | PopOp(default: V)

  /** Why an id is being released: by a client, as the second half of a push, or as the second half of a pop. */
  datatype Job<V> = Releasing | Pushing(v: V) | Returning(ret: V, taken: V)

  /** A thread's program counter with the locals live there; `ver` and `taken` are history variables. */
  datatype Pc<V> =
    | Idle
    | LoadHead(op: Op<V>)
    | LoadBlock(op: Op<V>, id: nat, at: nat, ver: nat)
    | Publish(op: Op<V>, id: nat, at: nat, ver: nat)
    | ReadNext(op: Op<V>, id: nat, at: nat, ver: nat)
    | CasHead(op: Op<V>, id: nat, at: nat, ver: nat, newid: nat)
    | SetPayload(at: nat, v: V)
    | GetPayload(at: nat, default: V, taken: V)
    | RelHead(at: nat, job: Job<V>)
    | RelNext(at: nat, job: Job<V>, x: nat)
    | RelCas(at: nat, job: Job<V>, x: nat)

  datatype State<V> = State(g: Shared<V>, pcs: seq<Pc<V>>)

  /** What the scheduler and the client choose: a call to start, the next access, or a spurious failure of it. */
  datatype Choice<V> = Begin(op: Op<V>) | Release(id: nat) | Proceed | Spurious

  function Get<V>(g: Shared<V>, l: ListId): Lst {
    if l.Stored? then g.stored else g.empty
  }

  function Put<V>(g: Shared<V>, l: ListId, lst: Lst): Shared<V> {
    if l.Stored? then g.(stored := lst) else g.(empty := lst)
  }

  function ListOf<V>(op: Op<V>): ListId {
    if op.PopOp? then Stored else Empty
  }

  function Target<V>(job: Job<V>): ListId {
    if job.Pushing? then Stored else Empty
  }

  /** The id a thread holds on its way between the lists. */
  ghost predicate Holds<V>(pc: Pc<V>, i: nat) {
    (pc.SetPayload? || pc.GetPayload? || pc.RelHead? || pc.RelNext? || pc.RelCas?) && pc.at == i
  }

  /** An element's successor; one of an unpublished block would be initialised to its own index plus one. */
  function Succ(next: map<nat, nat>, i: nat): nat {
    if i in next then next[i] else i + 1
  }

  function Payload<V>(g: Shared<V>, at: nat, default: V): V {
    if at in g.payload then g.payload[at] else default
  }

  // ----- steps

  /** A client hands an id back: `release(id)`, which only the id's owner may call. */
  function Claim<V>(g: Shared<V>, t: nat, id: nat): Shared<V> {
    g.(owner := g.owner[id := ByThread(t)])
  }

  /** Leaving `next4list` with -1: `next` returns -1, `push` returns false, `pop` returns its default. */
  function GiveUp<V>(g: Shared<V>, op: Op<V>): Shared<V> {
    if op.PopOp? then g.(log := g.log + [FoundEmpty]) else g
  }

  function Elements(c: Config, b: int): map<nat, nat> {
    map i: nat | i < Total(c.sizes) && BlockOf(c.sizes, i) == b :: i + 1
  }

  function PublishBlock<V>(c: Config, g: Shared<V>, b: int): Shared<V> {
    g.(published := g.published + {b}, next := g.next + Elements(c, b))
  }

  function Tail(xs: seq<nat>): seq<nat> {
    if xs == [] then [] else xs[1..]
  }

  /** The successful CAS of `next4list`. */
  function PopCommit<V>(g: Shared<V>, t: nat, op: Op<V>, at: nat, newid: nat): Shared<V> {
    var lst := Get(g, ListOf(op));
    var place := if op.NextOp? then ByClient else ByThread(t);
    var log := if op.PopOp? then g.log + [Popped(Payload(g, at, op.default))] else g.log;
    Put(g, ListOf(op), Lst(newid, Tail(lst.chain), lst.releases)).(owner := g.owner[at := place], log := log)
  }

  function AfterPop<V>(g: Shared<V>, op: Op<V>, at: nat): Pc<V> {
    match op
    case NextOp => Idle
    case PushOp(v) => SetPayload(at, v)
    case PopOp(d) => GetPayload(at, d, Payload(g, at, d))
  }

  /** The successful CAS of `release4list`. */
  function ReleaseCommit<V>(c: Config, g: Shared<V>, at: nat, job: Job<V>, x: nat): Shared<V>
    requires c.bits <= WORD_BITS
  {
    var lst := Get(g, Target(job));
    Put(g, Target(job), Lst(IncrementSerial(c.bits, x, at), [at] + lst.chain, lst.releases + 1)).(
      owner := g.owner[at := OnList(Target(job))],
      log := if job.Pushing? then g.log + [Pushed(job.v)] else g.log,
      returned := if job.Returning? then g.returned + [job.ret] else g.returned)
  }

  /** One step of thread t. */
  function Act<V>(c: Config, g: Shared<V>, t: nat, pc: Pc<V>, ch: Choice<V>): (Shared<V>, Pc<V>)
    requires c.bits <= WORD_BITS
  {
    match pc
    case Idle =>
      if ch.Begin? then (g, LoadHead(ch.op))
      else if ch.Release? && ch.id in g.owner && g.owner[ch.id] == ByClient then
        (Claim(g, t, ch.id), RelHead(ch.id, Releasing))
      else (g, pc)
    case LoadHead(op) =>
      var lst := Get(g, ListOf(op));
      var at := Index(c.bits, lst.word);
      if at < c.initial || at >= c.maxIndex || BlockOf(c.sizes, at) < 0 then (GiveUp(g, op), Idle)
      else (g, LoadBlock(op, lst.word, at, lst.releases))
    case LoadBlock(op, id, at, ver) =>
      if BlockOf(c.sizes, at) in g.published then (g, ReadNext(op, id, at, ver))
      else if op.PopOp? then (GiveUp(g, op), Idle)
      else (g, Publish(op, id, at, ver))
    case Publish(op, id, at, ver) =>
      // losing the race deletes the private block and reloads the published one, which never goes away
      (if BlockOf(c.sizes, at) in g.published then g else PublishBlock(c, g, BlockOf(c.sizes, at)),
       ReadNext(op, id, at, ver))
    case ReadNext(op, id, at, ver) =>
      (g, CasHead(op, id, at, ver, Relink(c.bits, Succ(g.next, at), id)))
    case CasHead(op, id, at, ver, newid) =>
      if ch.Spurious? || Get(g, ListOf(op)).word != id then (g, LoadHead(op))
      else (PopCommit(g, t, op, at, newid), AfterPop(g, op, at))
    // push and pop pass `id` to blockfor by reference, so what they release is the index within the block
    case SetPayload(at, v) =>
      (g.(payload := g.payload[at := v]), RelHead(InnerOf(c.sizes, at), Pushing(v)))
    case GetPayload(at, d, taken) =>
      (g, RelHead(InnerOf(c.sizes, at), Returning(Payload(g, at, d), taken)))
    case RelHead(at, job) =>
      (g, RelNext(at, job, Get(g, Target(job)).word))
    case RelNext(at, job, x) =>
      (g.(next := g.next[at := Index(c.bits, x)]), RelCas(at, job, x))
    case RelCas(at, job, x) =>
      if ch.Spurious? || Get(g, Target(job)).word != x then (g, RelHead(at, job))
      else (ReleaseCommit(c, g, at, job, x), Idle)
  }

  function Step<V>(c: Config, s: State<V>, t: nat, ch: Choice<V>): State<V>
    requires c.bits <= WORD_BITS && t < |s.pcs|
  {
    var (g, pc) := Act(c, s.g, t, s.pcs[t], ch);
    State(g, s.pcs[t := pc])
  }

  predicate IsId(c: Config, i: nat) {
    c.initial <= i < c.maxIndex
  }

  function Ids(c: Config): set<nat> {
    set i: nat | i < c.maxIndex && IsId(c, i)
  }

  function Upto(a: nat, b: nat): seq<nat>
    decreases b - a
  {
    if a >= b then [] else [a] + Upto(a + 1, b)
  }

  /** The constructor: `_stored` holds the end marker MaxIndex, `_empty` the first id, and no block exists. */
  function Init<V>(c: Config, threads: nat): State<V> {
    State(
      Shared(Lst(Pow2(c.bits) - 1, [], 0), Lst(c.initial, Upto(c.initial, c.maxIndex), 0),
             {}, map[], map[], map i | i in Ids(c) :: OnList(Empty), [], []),
      seq(threads, _ => Idle))
  }
}
