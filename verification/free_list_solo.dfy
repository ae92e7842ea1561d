/** One thread of the free list running on its own, from any state. */
module FreeListSolo {
  import opened Bits
  import opened HeadWord
  import opened FreeList
  import opened FreeListSafety
  import opened FreeListRuns

  // ----- one thread running on its own

  function Solo<V>(c: Config, g: Shared<V>, t: nat, pc: Pc<V>, chs: seq<Choice<V>>): (Shared<V>, Pc<V>)
    requires c.bits <= WORD_BITS
    decreases chs
  {
    if chs == [] then (g, pc)
    else
      var (h, q) := Act(c, g, t, pc, chs[0]);
      Solo(c, h, t, q, chs[1..])
  }

  function TurnsOf<V>(t: nat, chs: seq<Choice<V>>): seq<Turn<V>> {
    if chs == [] then [] else [Turn(t, chs[0])] + TurnsOf(t, chs[1..])
  }

  lemma {:induction false} TurnsScheduled<V>(t: nat, chs: seq<Choice<V>>, n: nat)
    requires t < n
    ensures Scheduled(TurnsOf(t, chs), n)
  {
    if chs != [] {
      TurnsScheduled(t, chs[1..], n);
    }
  }

  lemma {:induction false} RunSolo<V>(c: Config, s: State<V>, t: nat, chs: seq<Choice<V>>)
    requires c.Valid() && t < |s.pcs| && Scheduled(TurnsOf(t, chs), |s.pcs|)
    ensures var (h, q) := Solo(c, s.g, t, s.pcs[t], chs);
            Run(c, s, TurnsOf(t, chs)) == State(h, s.pcs[t := q])
    decreases chs
  {
    if chs == [] {
      assert s.pcs[t := s.pcs[t]] == s.pcs;
    } else {
      var s' := Step(c, s, t, chs[0]);
      assert TurnsOf(t, chs)[1..] == TurnsOf(t, chs[1..]);
      TurnsScheduled(t, chs[1..], |s.pcs|);
      RunSolo(c, s', t, chs[1..]);
      var q := Solo(c, s'.g, t, s'.pcs[t], chs[1..]).1;
      assert s'.pcs[t := q] == s.pcs[t := q];
    }
  }

  lemma {:induction false} RunAppend<V>(c: Config, s: State<V>, xs: seq<Turn<V>>, ys: seq<Turn<V>>)
    requires c.Valid() && Scheduled(xs, |s.pcs|) && Scheduled(ys, |s.pcs|)
    ensures Scheduled(xs + ys, |s.pcs|) && Run(c, s, xs + ys) == Run(c, Run(c, s, xs), ys)
    decreases xs
  {
    if xs == [] {
      assert xs + ys == ys;
    } else {
      assert (xs + ys)[1..] == xs[1..] + ys;
      RunAppend(c, Step(c, s, xs[0].t, xs[0].ch), xs[1..], ys);
    }
  }

  lemma {:induction false} SoloAppend<V>(c: Config, g: Shared<V>, t: nat, pc: Pc<V>,
                                         xs: seq<Choice<V>>, ys: seq<Choice<V>>)
    requires c.Valid()
    ensures var (h, q) := Solo(c, g, t, pc, xs);
            Solo(c, g, t, pc, xs + ys) == Solo(c, h, t, q, ys)
    decreases xs
  {
    if xs == [] {
      assert xs + ys == ys;
    } else {
      var (h, q) := Act(c, g, t, pc, xs[0]);
      assert (xs + ys)[1..] == xs[1..] + ys;
      SoloAppend(c, h, t, q, xs[1..], ys);
    }
  }

  lemma SoloStep<V>(c: Config, g: Shared<V>, t: nat, pc: Pc<V>, ch: Choice<V>, rest: seq<Choice<V>>)
    requires c.Valid()
    ensures var (h, q) := Act(c, g, t, pc, ch);
            Solo(c, g, t, pc, [ch] + rest) == Solo(c, h, t, q, rest)
  {
    assert ([ch] + rest)[1..] == rest;
  }

  // ----- undisturbed calls

  function NextCall<V>(): seq<Choice<V>> {
    [Begin(NextOp)] + ([Proceed] + ([Proceed] + ([Proceed] + ([Proceed] + []))))
  }

  function ReleaseCall<V>(i: nat): seq<Choice<V>> {
    [Release(i)] + ([Proceed] + ([Proceed] + ([Proceed] + [])))
  }

  /** The empty list starts at x, whose block exists. */
  ghost predicate HeadIs<V>(c: Config, g: Shared<V>, x: nat) {
    && c.Valid() && IsId(c, x) && Index(c.bits, g.empty.word) == x
    && BlockOf(c.sizes, x) in g.published
  }

  lemma NextSolo<V>(c: Config, g: Shared<V>, t: nat, x: nat)
    requires HeadIs(c, g, x)
    ensures Solo(c, g, t, Idle, NextCall())
            == (PopCommit(g, t, NextOp, x, Relink(c.bits, Succ(g.next, x), g.empty.word)), Idle)
  {
    var w, v := g.empty.word, g.empty.releases;
    var rest: seq<Choice<V>> := [];
    BlockOfTotal(c.sizes, x);
    SoloStep(c, g, t, Idle, Begin(NextOp), [Proceed] + ([Proceed] + ([Proceed] + ([Proceed] + rest))));
    SoloStep(c, g, t, LoadHead(NextOp), Proceed, [Proceed] + ([Proceed] + ([Proceed] + rest)));
    SoloStep(c, g, t, LoadBlock(NextOp, w, x, v), Proceed, [Proceed] + ([Proceed] + rest));
    SoloStep(c, g, t, ReadNext(NextOp, w, x, v), Proceed, [Proceed] + rest);
    SoloStep(c, g, t, CasHead(NextOp, w, x, v, Relink(c.bits, Succ(g.next, x), w)), Proceed, rest);
  }

  function Released<V>(c: Config, g: Shared<V>, t: nat, i: nat): Shared<V>
    requires c.bits <= WORD_BITS
  {
    ReleaseCommit(c, Claim(g, t, i).(next := g.next[i := Index(c.bits, g.empty.word)]), i, Releasing, g.empty.word)
  }

  lemma ReleaseSolo<V>(c: Config, g: Shared<V>, t: nat, i: nat)
    requires c.Valid() && i in g.owner && g.owner[i] == ByClient
    ensures Solo(c, g, t, Idle, ReleaseCall(i)) == (Released(c, g, t, i), Idle)
  {
    var w := g.empty.word;
    var rest: seq<Choice<V>> := [];
    var g1 := Claim(g, t, i);
    var g2 := g1.(next := g.next[i := Index(c.bits, w)]);
    SoloStep(c, g, t, Idle, Release(i), [Proceed] + ([Proceed] + ([Proceed] + rest)));
    SoloStep(c, g1, t, RelHead(i, Releasing), Proceed, [Proceed] + ([Proceed] + rest));
    SoloStep(c, g1, t, RelNext(i, Releasing, w), Proceed, [Proceed] + rest);
    SoloStep(c, g2, t, RelCas(i, Releasing, w), Proceed, rest);
  }

  /** A call up to its head CAS, when it has to publish a block on the way. */
  function UpToCas<V>(op: Op<V>, rest: seq<Choice<V>>): seq<Choice<V>> {
    [Begin(op)] + ([Proceed] + ([Proceed] + ([Proceed] + ([Proceed] + rest))))
  }

  lemma ReachCas<V>(c: Config, g: Shared<V>, t: nat, op: Op<V>, x: nat, rest: seq<Choice<V>>)
    requires c.Valid() && IsId(c, x) && Index(c.bits, g.empty.word) == x && !op.PopOp?
    requires BlockOf(c.sizes, x) !in g.published
    ensures var w := g.empty.word;
            var h := PublishBlock(c, g, BlockOf(c.sizes, x));
            Solo(c, g, t, Idle, UpToCas(op, rest))
            == Solo(c, h, t, CasHead(op, w, x, g.empty.releases, Relink(c.bits, Succ(h.next, x), w)), rest)
  {
    var w, r := g.empty.word, g.empty.releases;
    BlockOfTotal(c.sizes, x);
    SoloStep(c, g, t, Idle, Begin(op), [Proceed] + ([Proceed] + ([Proceed] + ([Proceed] + rest))));
    SoloStep(c, g, t, LoadHead(op), Proceed, [Proceed] + ([Proceed] + ([Proceed] + rest)));
    SoloStep(c, g, t, LoadBlock(op, w, x, r), Proceed, [Proceed] + ([Proceed] + rest));
    SoloStep(c, g, t, Publish(op, w, x, r), Proceed, [Proceed] + rest);
    SoloStep(c, PublishBlock(c, g, BlockOf(c.sizes, x)), t, ReadNext(op, w, x, r), Proceed, rest);
  }

  lemma CasCommits<V>(c: Config, g: Shared<V>, t: nat, op: Op<V>, x: nat, r: nat, newid: nat)
    requires c.Valid()
    ensures Act(c, g, t, CasHead(op, Get(g, ListOf(op)).word, x, r, newid), Proceed)
            == (PopCommit(g, t, op, x, newid), AfterPop(g, op, x))
  {
  }

  lemma CasSolo<V>(c: Config, g: Shared<V>, t: nat, op: Op<V>, x: nat, r: nat, newid: nat, rest: seq<Choice<V>>)
    requires c.Valid()
    ensures Solo(c, g, t, CasHead(op, Get(g, ListOf(op)).word, x, r, newid), [Proceed] + rest)
            == Solo(c, PopCommit(g, t, op, x, newid), t, AfterPop(g, op, x), rest)
  {
    CasCommits(c, g, t, op, x, r, newid);
    SoloStep(c, g, t, CasHead(op, Get(g, ListOf(op)).word, x, r, newid), Proceed, rest);
  }

  /** The same call when the block exists already: one access less. */
  lemma KnownCall<V>(c: Config, g: Shared<V>, t: nat, op: Op<V>, x: nat, rest: seq<Choice<V>>)
    requires HeadIs(c, g, x) && !op.PopOp?
    ensures Solo(c, g, t, Idle, UpToCas(op, rest))
            == Solo(c, PopCommit(g, t, op, x, Relink(c.bits, Succ(g.next, x), g.empty.word)), t,
                    AfterPop(g, op, x), rest)
  {
    var w, r := g.empty.word, g.empty.releases;
    BlockOfTotal(c.sizes, x);
    SoloStep(c, g, t, Idle, Begin(op), [Proceed] + ([Proceed] + ([Proceed] + ([Proceed] + rest))));
    SoloStep(c, g, t, LoadHead(op), Proceed, [Proceed] + ([Proceed] + ([Proceed] + rest)));
    SoloStep(c, g, t, LoadBlock(op, w, x, r), Proceed, [Proceed] + ([Proceed] + rest));
    SoloStep(c, g, t, ReadNext(op, w, x, r), Proceed, [Proceed] + rest);
    CasSolo(c, g, t, op, x, r, Relink(c.bits, Succ(g.next, x), w), rest);
  }

  // ----- whole calls of `push` and `pop`

  /** With a turn to spare when the block exists. */
  function PushCall<V>(v: V): seq<Choice<V>> {
    UpToCas(PushOp(v), [Proceed] + Store())
  }

  /** The part of `push` or `pop` after its head CAS. */
  function Store<V>(): seq<Choice<V>> {
    [Proceed] + ([Proceed] + ([Proceed] + ([Proceed] + [])))
  }

  function PopCall<V>(d: V): seq<Choice<V>> {
    UpToCas(PopOp(d), Store())
  }

  function Taken<V>(c: Config, g: Shared<V>, t: nat, op: Op<V>, x: nat): Shared<V>
    requires c.bits <= WORD_BITS
  {
    PopCommit(g, t, op, x, Relink(c.bits, Succ(g.next, x), Get(g, ListOf(op)).word))
  }

  /** Storing v in element x and releasing x by its index within the block. */
  function Filed<V>(c: Config, g: Shared<V>, x: nat, v: V): Shared<V>
    requires c.bits <= WORD_BITS
  {
    var a, w := InnerOf(c.sizes, x), g.stored.word;
    ReleaseCommit(c, g.(payload := g.payload[x := v], next := g.next[a := Index(c.bits, w)]), a, Pushing(v), w)
  }

  /** Reading the payload of x and releasing x by its index within the block. */
  function Fetched<V>(c: Config, g: Shared<V>, x: nat, d: V, taken: V): Shared<V>
    requires c.bits <= WORD_BITS
  {
    var a, w := InnerOf(c.sizes, x), g.empty.word;
    ReleaseCommit(c, g.(next := g.next[a := Index(c.bits, w)]), a, Returning(Payload(g, x, d), taken), w)
  }

  /** A call up to its head CAS, when it is the first to need its block. */
  lemma NewCall<V>(c: Config, g: Shared<V>, t: nat, op: Op<V>, x: nat, rest: seq<Choice<V>>)
    requires c.Valid() && IsId(c, x) && Index(c.bits, g.empty.word) == x && !op.PopOp?
    requires BlockOf(c.sizes, x) !in g.published
    ensures var h := PublishBlock(c, g, BlockOf(c.sizes, x));
            Solo(c, g, t, Idle, UpToCas(op, [Proceed] + rest))
            == Solo(c, Taken(c, h, t, op, x), t, AfterPop(h, op, x), rest)
  {
    var h := PublishBlock(c, g, BlockOf(c.sizes, x));
    ReachCas(c, g, t, op, x, [Proceed] + rest);
    CasSolo(c, h, t, op, x, g.empty.releases, Relink(c.bits, Succ(h.next, x), g.empty.word), rest);
  }

  lemma StoreSteps<V>(c: Config, g: Shared<V>, t: nat, x: nat, v: V)
    requires c.Valid()
    ensures Solo(c, g, t, SetPayload(x, v), Store()) == (Filed(c, g, x, v), Idle)
  {
    var a, w, rest: seq<Choice<V>> := InnerOf(c.sizes, x), g.stored.word, [];
    var g1 := g.(payload := g.payload[x := v]);
    var g2 := g1.(next := g.next[a := Index(c.bits, w)]);
    SoloStep(c, g, t, SetPayload(x, v), Proceed, [Proceed] + ([Proceed] + ([Proceed] + rest)));
    SoloStep(c, g1, t, RelHead(a, Pushing(v)), Proceed, [Proceed] + ([Proceed] + rest));
    SoloStep(c, g1, t, RelNext(a, Pushing(v), w), Proceed, [Proceed] + rest);
    SoloStep(c, g2, t, RelCas(a, Pushing(v), w), Proceed, rest);
  }

  lemma StoreThenIdle<V>(c: Config, g: Shared<V>, t: nat, x: nat, v: V)
    requires c.Valid()
    ensures Solo(c, g, t, SetPayload(x, v), [Proceed] + Store()) == (Filed(c, g, x, v), Idle)
  {
    var one: seq<Choice<V>> := [Proceed];
    assert one + Store() == Store() + one;
    SoloAppend(c, g, t, SetPayload(x, v), Store(), one);
    StoreSteps(c, g, t, x, v);
    assert one == [Proceed] + [];
    SoloStep(c, Filed(c, g, x, v), t, Idle, Proceed, []);
  }

  lemma FetchSteps<V>(c: Config, g: Shared<V>, t: nat, x: nat, d: V, taken: V)
    requires c.Valid()
    ensures Solo(c, g, t, GetPayload(x, d, taken), Store()) == (Fetched(c, g, x, d, taken), Idle)
  {
    var a, w, rest: seq<Choice<V>> := InnerOf(c.sizes, x), g.empty.word, [];
    var job := Returning(Payload(g, x, d), taken);
    var g1 := g.(next := g.next[a := Index(c.bits, w)]);
    SoloStep(c, g, t, GetPayload(x, d, taken), Proceed, [Proceed] + ([Proceed] + ([Proceed] + rest)));
    SoloStep(c, g, t, RelHead(a, job), Proceed, [Proceed] + ([Proceed] + rest));
    SoloStep(c, g, t, RelNext(a, job, w), Proceed, [Proceed] + rest);
    SoloStep(c, g1, t, RelCas(a, job, w), Proceed, rest);
  }

  lemma PopReaches<V>(c: Config, g: Shared<V>, t: nat, x: nat, d: V, rest: seq<Choice<V>>)
    requires c.Valid() && IsId(c, x) && Index(c.bits, g.stored.word) == x && BlockOf(c.sizes, x) in g.published
    ensures Solo(c, g, t, Idle, UpToCas(PopOp(d), rest))
            == Solo(c, Taken(c, g, t, PopOp(d), x), t, GetPayload(x, d, Payload(g, x, d)), rest)
  {
    var w, r, op := g.stored.word, g.stored.releases, PopOp(d);
    BlockOfTotal(c.sizes, x);
    SoloStep(c, g, t, Idle, Begin(op), [Proceed] + ([Proceed] + ([Proceed] + ([Proceed] + rest))));
    SoloStep(c, g, t, LoadHead(op), Proceed, [Proceed] + ([Proceed] + ([Proceed] + rest)));
    SoloStep(c, g, t, LoadBlock(op, w, x, r), Proceed, [Proceed] + ([Proceed] + rest));
    SoloStep(c, g, t, ReadNext(op, w, x, r), Proceed, [Proceed] + rest);
    CasSolo(c, g, t, op, x, r, Relink(c.bits, Succ(g.next, x), w), rest);
  }

  /** An undisturbed `pop` from a list that starts at x. */
  lemma PopSolo<V>(c: Config, g: Shared<V>, t: nat, x: nat, d: V)
    requires c.Valid() && IsId(c, x) && Index(c.bits, g.stored.word) == x && BlockOf(c.sizes, x) in g.published
    ensures Solo(c, g, t, Idle, PopCall(d))
            == (Fetched(c, Taken(c, g, t, PopOp(d), x), x, d, Payload(g, x, d)), Idle)
  {
    PopReaches(c, g, t, x, d, Store());
    FetchSteps(c, Taken(c, g, t, PopOp(d), x), t, x, d, Payload(g, x, d));
  }

  /** An undisturbed `push` when the empty list starts at x. */
  lemma PushSolo<V>(c: Config, g: Shared<V>, t: nat, x: nat, v: V)
    requires c.Valid() && IsId(c, x) && Index(c.bits, g.empty.word) == x
    ensures var b := BlockOf(c.sizes, x);
            var h := if b in g.published then g else PublishBlock(c, g, b);
            Solo(c, g, t, Idle, PushCall(v)) == (Filed(c, Taken(c, h, t, PushOp(v), x), x, v), Idle)
  {
    if BlockOf(c.sizes, x) in g.published {
      KnownCall(c, g, t, PushOp(v), x, [Proceed] + Store());
      StoreThenIdle(c, Taken(c, g, t, PushOp(v), x), t, x, v);
    } else {
      var h := PublishBlock(c, g, BlockOf(c.sizes, x));
      NewCall(c, g, t, PushOp(v), x, Store());
      StoreSteps(c, Taken(c, h, t, PushOp(v), x), t, x, v);
    }
  }

  /** A `next`, with a turn to spare when the block exists. */
  function AnyNext<V>(): seq<Choice<V>> {
    UpToCas(NextOp, [Proceed] + [])
  }

  /** An undisturbed `next` when the empty list starts at x. */
  lemma AnyNextSolo<V>(c: Config, g: Shared<V>, t: nat, x: nat)
    requires c.Valid() && IsId(c, x) && Index(c.bits, g.empty.word) == x
    ensures var b := BlockOf(c.sizes, x);
            var h := if b in g.published then g else PublishBlock(c, g, b);
            Solo(c, g, t, Idle, AnyNext()) == (Taken(c, h, t, NextOp, x), Idle)
  {
    var rest: seq<Choice<V>> := [];
    if BlockOf(c.sizes, x) in g.published {
      KnownCall(c, g, t, NextOp, x, [Proceed] + rest);
      SoloStep(c, Taken(c, g, t, NextOp, x), t, Idle, Proceed, rest);
    } else {
      NewCall(c, g, t, NextOp, x, rest);
    }
  }
}
