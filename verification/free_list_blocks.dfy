/** When `push` and `pop` are sound. Both hand their id to `blockfor` by reference before they release it, so the
    id released is the index within the block: right when every id lies in the first block, and only then. */
module FreeListBlocks {
  import opened Bits
  import opened HeadWord
  import opened FreeList
  import opened FreeListSafety
  import opened FreeListRuns
  import opened FreeListSolo
  import FreeListAba

  /** Every id lies in the first block, which a caller can read off the constants and the size it asks for. */
  predicate OneBlock(c: Config) {
    c.sizes != [] && c.maxIndex <= c.sizes[0]
  }

  ghost predicate IsSplit<V>(c: Config, s: State<V>) {
    exists stored, empty :: Split(c, s, stored, empty)
  }

  // ----- sufficient conditions

  lemma {:induction false} OneBlockIsOrderly<V>(c: Config, s: State<V>, turns: seq<Turn<V>>)
    requires Inv(c, s) && OneBlock(c) && Scheduled(turns, |s.pcs|) && TimelyRun(c, s, turns)
    ensures OrderlyRun(c, s, turns)
    decreases turns
  {
    if turns != [] {
      var t, ch := turns[0].t, turns[0].ch;
      OneBlockIsDirect(c, s, t);
      StepKeepsInv(c, s, t, ch);
      OneBlockIsOrderly(c, Step(c, s, t, ch), turns[1..]);
    }
  }

  lemma OneBlockIsDirect<V>(c: Config, s: State<V>, t: nat)
    requires Inv(c, s) && OneBlock(c) && t < |s.pcs|
    ensures Direct(c, s.pcs[t])
  {
    var pc := s.pcs[t];
    assert PcInv(c, s.g, t, pc);
    if pc.SetPayload? || pc.GetPayload? {
      assert Holds(pc, pc.at);
    }
  }

  /** A list used only through `next` and `release` has no such restriction. */
  ghost predicate NextOnly<V>(turns: seq<Turn<V>>) {
    forall k :: 0 <= k < |turns| && turns[k].ch.Begin? ==> turns[k].ch.op.NextOp?
  }

  predicate FirstMode<V>(pc: Pc<V>) {
    match pc
    case Idle => true
    case LoadHead(op) => op.NextOp?
    case LoadBlock(op, _, _, _) => op.NextOp?
    case Publish(op, _, _, _) => op.NextOp?
    case ReadNext(op, _, _, _) => op.NextOp?
    case CasHead(op, _, _, _, _) => op.NextOp?
    case SetPayload(_, _) => false
    case GetPayload(_, _, _) => false
    case _ => true
  }

  lemma {:induction false} NextOnlyIsOrderly<V>(c: Config, s: State<V>, turns: seq<Turn<V>>)
    requires c.Valid() && Scheduled(turns, |s.pcs|) && TimelyRun(c, s, turns) && NextOnly(turns)
    requires forall t :: 0 <= t < |s.pcs| ==> FirstMode(s.pcs[t])
    ensures OrderlyRun(c, s, turns)
    decreases turns
  {
    if turns != [] {
      var t, ch := turns[0].t, turns[0].ch;
      assert FirstMode(Act(c, s.g, t, s.pcs[t], ch).1);
      assert NextOnly(turns[1..]) by {
        assert forall k :: 0 <= k < |turns[1..]| ==> turns[1..][k] == turns[k + 1];
      }
      NextOnlyIsOrderly(c, Step(c, s, t, ch), turns[1..]);
    }
  }

  // ----- a thread on its own is timely

  ghost predicate OwnTimely<V>(g: Shared<V>, pc: Pc<V>) {
    pc.LoadBlock? || pc.Publish? || pc.ReadNext? || pc.CasHead? ==> Get(g, ListOf(pc.op)).releases == pc.ver
  }

  lemma {:induction false} SoloIsTimely<V>(c: Config, s: State<V>, t: nat, chs: seq<Choice<V>>)
    requires c.Valid() && t < |s.pcs| && OwnTimely(s.g, s.pcs[t])
    ensures Scheduled(TurnsOf(t, chs), |s.pcs|) && TimelyRun(c, s, TurnsOf(t, chs))
    decreases chs
  {
    TurnsScheduled(t, chs, |s.pcs|);
    if chs != [] {
      var s' := Step(c, s, t, chs[0]);
      assert TurnsOf(t, chs)[1..] == TurnsOf(t, chs[1..]);
      assert OwnTimely(s'.g, s'.pcs[t]);
      SoloIsTimely(c, s', t, chs[1..]);
    }
  }

  // ----- the pushes that fit in the first block

  /** An index on the stored list when only ids below x have been pushed, or the end of that list. */
  predicate Inside(c: Config, x: nat, i: nat) {
    c.initial <= i < x || i >= c.maxIndex
  }

  /** Ids below x lead only to each other, and from x on every id leads to the next. */
  ghost predicate Separate(c: Config, next: map<nat, nat>, x: nat) {
    && (forall i: nat :: c.initial <= i < x ==> Inside(c, x, Succ(next, i)))
    && (forall i: nat :: i >= x ==> Succ(next, i) == i + 1)
  }

  ghost predicate AllHold<V>(payload: map<nat, V>, v: V) {
    forall i :: i in payload ==> payload[i] == v
  }

  ghost predicate AllPushed<V>(log: seq<Event<V>>, v: V) {
    forall k :: 0 <= k < |log| ==> log[k] == Pushed(v)
  }

  /** The ids below x have been pushed, each with the value v, and no other id has been taken. */
  ghost predicate Filled<V>(c: Config, g: Shared<V>, x: nat, v: V) {
    && c.Valid() && IsWord(g.empty.word) && Index(c.bits, g.empty.word) == x
    && IsWord(g.stored.word) && Inside(c, x, Index(c.bits, g.stored.word))
    && g.published <= {0} && (g.published == {} ==> x == c.initial && g.next == map[])
    && Separate(c, g.next, x)
    && AllHold(g.payload, v) && AllPushed(g.log, v)
  }

  ghost predicate FilledIdle<V>(c: Config, r: (Shared<V>, Pc<V>), x: nat, v: V) {
    Filled(c, r.0, x, v) && r.1 == Idle
  }

  predicate InFirst(c: Config, x: nat) {
    IsId(c, x) && c.sizes != [] && x < c.sizes[0]
  }

  /** Publishing a block that holds no id below x leaves the two parts separate. */
  lemma PublishSeparate<V>(c: Config, g: Shared<V>, b: int, x: nat)
    requires Separate(c, g.next, x) && forall i: nat :: c.initial <= i < x ==> BlockOf(c.sizes, i) != b
    ensures Separate(c, PublishBlock(c, g, b).next, x)
  {
    var next := PublishBlock(c, g, b).next;
    forall i: nat | c.initial <= i < x
      ensures Inside(c, x, Succ(next, i))
    {
      assert i !in Elements(c, b) && Succ(next, i) == Succ(g.next, i);
    }
    forall i: nat | i >= x
      ensures Succ(next, i) == i + 1
    {
      assert i in Elements(c, b) ==> Elements(c, b)[i] == i + 1;
      assert Succ(g.next, i) == i + 1;
    }
  }

  lemma PublishFilled<V>(c: Config, g: Shared<V>, x: nat, v: V)
    requires Filled(c, g, x, v) && 0 !in g.published
    ensures Filled(c, PublishBlock(c, g, 0), x, v)
  {
    assert g.published == {};
    PublishSeparate(c, g, 0, x);
  }

  /** Filing x in front of the stored list. */
  lemma FiledSeparate(c: Config, next: map<nat, nat>, x: nat, h: nat)
    requires Separate(c, next, x) && Inside(c, x, h) && IsId(c, x)
    ensures Separate(c, next[x := h], x + 1)
  {
    var now := next[x := h];
    forall i: nat | c.initial <= i < x + 1
      ensures Inside(c, x + 1, Succ(now, i))
    {
      assert i < x ==> Inside(c, x, Succ(next, i));
    }
    forall i: nat | i >= x + 1
      ensures Succ(now, i) == i + 1
    {
      assert Succ(next, i) == i + 1;
    }
  }

  lemma FiledValues<V>(payload: map<nat, V>, log: seq<Event<V>>, x: nat, v: V)
    requires AllHold(payload, v) && AllPushed(log, v)
    ensures AllHold(payload[x := v], v) && AllPushed(log + [Pushed(v)], v)
  {
  }

  lemma TakenWords<V>(c: Config, g: Shared<V>, t: nat, x: nat, v: V)
    requires c.Valid() && IsId(c, x) && IsWord(g.empty.word) && Succ(g.next, x) == x + 1
    ensures var h := Taken(c, g, t, PushOp(v), x);
            IsWord(h.empty.word) && Index(c.bits, h.empty.word) == x + 1
  {
    RelinkParts(c.bits, x + 1, g.empty.word);
  }

  lemma FiledWords<V>(c: Config, g: Shared<V>, x: nat, v: V)
    requires c.Valid() && IsId(c, x) && IsWord(g.stored.word) && InnerOf(c.sizes, x) <= x
    ensures var a, h := InnerOf(c.sizes, x), Filed(c, g, x, v);
            && IsWord(h.stored.word) && Index(c.bits, h.stored.word) == a
            && h.next == g.next[a := Index(c.bits, g.stored.word)]
  {
    var a := InnerOf(c.sizes, x);
    IncrementSerialParts(c.bits, g.stored.word, a);
    IndexOfSmall(c.bits, a);
  }

  lemma FiledFilled<V>(c: Config, g: Shared<V>, t: nat, x: nat, v: V)
    requires Filled(c, g, x, v) && 0 in g.published && InFirst(c, x)
    ensures Filled(c, Filed(c, Taken(c, g, t, PushOp(v), x), x, v), x + 1, v)
  {
    TakenWords(c, g, t, x, v);
    FiledWords(c, Taken(c, g, t, PushOp(v), x), x, v);
    FiledSeparate(c, g.next, x, Index(c.bits, g.stored.word));
    FiledValues(g.payload, g.log, x, v);
  }

  lemma PushFills<V>(c: Config, g: Shared<V>, t: nat, x: nat, v: V)
    requires Filled(c, g, x, v) && InFirst(c, x)
    ensures FilledIdle(c, Solo(c, g, t, Idle, PushCall(v)), x + 1, v)
  {
    var rest: seq<Choice<V>> := Store();
    if 0 in g.published {
      KnownCall(c, g, t, PushOp(v), x, [Proceed] + rest);
      StoreThenIdle(c, Taken(c, g, t, PushOp(v), x), t, x, v);
      FiledFilled(c, g, t, x, v);
    } else {
      var h := PublishBlock(c, g, 0);
      PublishFilled(c, g, x, v);
      NewCall(c, g, t, PushOp(v), x, rest);
      StoreSteps(c, Taken(c, h, t, PushOp(v), x), t, x, v);
      FiledFilled(c, h, t, x, v);
    }
  }

  function Repeat<V>(xs: seq<Choice<V>>, k: nat): seq<Choice<V>> {
    if k == 0 then [] else xs + Repeat(xs, k - 1)
  }

  /** k calls, each of which comes to its end, lead from g to h. */
  ghost predicate Calls<V>(c: Config, g: Shared<V>, t: nat, xs: seq<Choice<V>>, k: nat, h: Shared<V>)
    requires c.Valid()
    decreases k
  {
    if k == 0 then h == g
    else
      var (g', q) := Solo(c, g, t, Idle, xs);
      q == Idle && Calls(c, g', t, xs, k - 1, h)
  }

  lemma {:induction false} CallsAreSolo<V>(c: Config, g: Shared<V>, t: nat, xs: seq<Choice<V>>, k: nat, h: Shared<V>)
    requires c.Valid() && Calls(c, g, t, xs, k, h)
    ensures Solo(c, g, t, Idle, Repeat(xs, k)) == (h, Idle)
    decreases k
  {
    if k > 0 {
      SoloAppend(c, g, t, Idle, xs, Repeat(xs, k - 1));
      CallsAreSolo(c, Solo(c, g, t, Idle, xs).0, t, xs, k - 1, h);
    }
  }

  /** What one call does while the first block lasts, k calls do k times over, up to id z. */
  lemma {:induction false} CallsFill<V>(c: Config, g: Shared<V>, t: nat, x: nat, k: nat, z: nat,
                                        v: V, xs: seq<Choice<V>>) returns (h: Shared<V>)
    requires c.Valid()
    requires forall h: Shared<V>, y: nat :: Filled(c, h, y, v) && InFirst(c, y) ==>
                                              FilledIdle(c, Solo(c, h, t, Idle, xs), y + 1, v)
    requires Filled(c, g, x, v) && c.initial <= x && x + k == z && (k > 0 ==> InFirst(c, z - 1))
    ensures Filled(c, h, z, v) && Calls(c, g, t, xs, k, h)
    decreases k
  {
    h := g;
    if k > 0 {
      assert InFirst(c, x);
      h := CallsFill(c, Solo(c, g, t, Idle, xs).0, t, x + 1, k - 1, z, v, xs);
    }
  }

  lemma PushesFill<V>(c: Config, g: Shared<V>, t: nat, x: nat, k: nat, z: nat, v: V)
    requires Filled(c, g, x, v) && c.initial <= x && x + k == z && (k > 0 ==> InFirst(c, z - 1))
    ensures FilledIdle(c, Solo(c, g, t, Idle, Repeat(PushCall(v), k)), z, v)
  {
    var push := PushCall(v);
    forall h: Shared<V>, y: nat | Filled(c, h, y, v) && InFirst(c, y)
      ensures FilledIdle(c, Solo(c, h, t, Idle, push), y + 1, v)
    {
      PushFills(c, h, t, y, v);
    }
    var h := CallsFill(c, g, t, x, k, z, v, push);
    CallsAreSolo(c, g, t, push, k, h);
  }

  // ----- the push after them

  /** After the push of id x, the first beyond the first block: index 0 heads the stored list in its place. */
  ghost predicate Misfiled<V>(c: Config, g: Shared<V>, t: nat, x: nat) {
    && Index(c.bits, g.stored.word) == 0 && Index(c.bits, g.empty.word) == x + 1
    && Separate(c, g.next, x) && Inside(c, x, Succ(g.next, 0))
    && x in g.owner && g.owner[x] == ByThread(t)
  }

  lemma {:induction false} InnerOfZero(sizes: seq<nat>)
    ensures InnerOf(sizes, 0) == 0
  {
    if sizes != [] {
      InnerOfZero(sizes[1..]);
    }
  }

  lemma SecondBlock(c: Config, x: nat)
    requires c.Valid() && IsId(c, x) && 0 < c.sizes[0] == x
    ensures BlockOf(c.sizes, x) > 0 && InnerOf(c.sizes, x) == 0
    ensures forall i: nat :: i < x ==> BlockOf(c.sizes, i) == 0
  {
    BlockOfTotal(c.sizes, x);
    InnerOfZero(c.sizes[1..]);
  }

  lemma FiledMisfiles<V>(c: Config, g: Shared<V>, t: nat, x: nat, w: V)
    requires c.Valid() && IsId(c, x) && 0 < c.sizes[0] == x && IsWord(g.empty.word) && Index(c.bits, g.empty.word) == x
    requires IsWord(g.stored.word) && Inside(c, x, Index(c.bits, g.stored.word)) && Separate(c, g.next, x)
    ensures Misfiled(c, Filed(c, Taken(c, g, t, PushOp(w), x), x, w), t, x)
  {
    SecondBlock(c, x);
    TakenWords(c, g, t, x, w);
    FiledWords(c, Taken(c, g, t, PushOp(w), x), x, w);
    ZeroSeparate(c, g.next, x, Index(c.bits, g.stored.word));
  }

  lemma ZeroSeparate(c: Config, next: map<nat, nat>, x: nat, h: nat)
    requires Separate(c, next, x) && Inside(c, x, h) && x > 0
    ensures Separate(c, next[0 := h], x)
  {
    var now := next[0 := h];
    forall i: nat | c.initial <= i < x
      ensures Inside(c, x, Succ(now, i))
    {
      assert Inside(c, x, Succ(next, i));
    }
    forall i: nat | i >= x
      ensures Succ(now, i) == i + 1
    {
      assert Succ(next, i) == i + 1;
    }
  }

  lemma PushMisfiles<V>(c: Config, g: Shared<V>, t: nat, x: nat, v: V, w: V)
    requires Filled(c, g, x, v) && IsId(c, x) && 0 < c.sizes[0] == x
    ensures var (h, q) := Solo(c, g, t, Idle, PushCall(w));
            && q == Idle && Misfiled(c, h, t, x)
            && h.payload == g.payload[x := w] && h.log == g.log + [Pushed(w)]
  {
    var b := BlockOf(c.sizes, x);
    var h := PublishBlock(c, g, b);
    SecondBlock(c, x);
    PublishSeparate(c, g, b, x);
    assert Succ(h.next, x) == x + 1;
    NewCall(c, g, t, PushOp(w), x, Store());
    StoreSteps(c, Taken(c, h, t, PushOp(w), x), t, x, w);
    FiledMisfiles(c, h, t, x, w);
  }

  // ----- what that push breaks

  /** A chain that only counts up never comes back below its start. */
  lemma {:induction false} ChainCountsUp(next: map<nat, nat>, max: nat, h: nat, xs: seq<nat>, e: nat)
    requires ChainFrom(next, max, h, xs) && e in xs
    requires forall i: nat :: i >= h ==> Succ(next, i) == i + 1
    ensures e >= h
    decreases xs
  {
    if e != xs[0] {
      ChainCountsUp(next, max, h + 1, xs[1..], e);
    }
  }

  lemma {:induction false} ChainStaysInside(c: Config, next: map<nat, nat>, x: nat, h: nat, xs: seq<nat>, e: nat)
    requires ChainFrom(next, c.maxIndex, h, xs) && e in xs && Inside(c, x, h) && Separate(c, next, x)
    ensures c.initial <= e < x
    decreases xs
  {
    if e != xs[0] {
      ChainStaysInside(c, next, x, Succ(next, h), xs[1..], e);
    }
  }

  /** No two lists can complete a split: the misfiled id is on neither. */
  lemma MisfiledIsNowhere<V>(c: Config, s: State<V>, t: nat, x: nat, stored: seq<nat>, empty: seq<nat>)
    requires c.Valid() && IsId(c, x) && x > 0 && Misfiled(c, s.g, t, x)
    requires forall u :: 0 <= u < |s.pcs| ==> s.pcs[u] == Idle
    requires ListsAre(c, s, stored, empty)
    ensures !Somewhere(s, x, stored, empty)
  {
    if x in stored {
      ChainStaysInside(c, s.g.next, x, Succ(s.g.next, 0), stored[1..], x);
    }
    if x in empty {
      ChainCountsUp(s.g.next, c.maxIndex, x + 1, empty, x);
    }
    forall u: nat
      ensures !HeldBy(s, u, x)
    {
      assert u < |s.pcs| ==> s.pcs[u] == Idle;
    }
  }

  lemma MisfiledIsNotSplit<V>(c: Config, s: State<V>, t: nat, x: nat)
    requires c.Valid() && IsId(c, x) && x > 0 && Misfiled(c, s.g, t, x)
    requires forall u :: 0 <= u < |s.pcs| ==> s.pcs[u] == Idle
    ensures !IsSplit(c, s)
  {
    forall stored, empty | ListsAre(c, s, stored, empty)
      ensures !Split(c, s, stored, empty)
    {
      MisfiledIsNowhere(c, s, t, x, stored, empty);
    }
  }

  // ----- the whole run

  /** Only `push` and `pop` are called. */
  ghost predicate PushPopOnly<V>(turns: seq<Turn<V>>) {
    forall k :: 0 <= k < |turns| ==> PushPop(turns[k].ch)
  }

  predicate PushPop<V>(ch: Choice<V>) {
    !ch.Release? && (ch.Begin? ==> !ch.op.NextOp?)
  }

  ghost predicate AllPushPop<V>(chs: seq<Choice<V>>) {
    forall k :: 0 <= k < |chs| ==> PushPop(chs[k])
  }

  lemma {:induction false} RepeatPushPop<V>(xs: seq<Choice<V>>, k: nat)
    requires AllPushPop(xs)
    ensures AllPushPop(Repeat(xs, k))
  {
    if k > 0 {
      RepeatPushPop(xs, k - 1);
    }
  }

  lemma {:induction false} TurnsPushPop<V>(t: nat, chs: seq<Choice<V>>)
    requires AllPushPop(chs)
    ensures PushPopOnly(TurnsOf(t, chs))
  {
    if chs != [] {
      assert PushPop(chs[0]);
      assert AllPushPop(chs[1..]);
      TurnsPushPop(t, chs[1..]);
    }
  }

  /** One thread pushes v once for every id of the first block, and then w. */
  function FarPush<V>(c: Config, v: V, w: V): seq<Choice<V>>
    requires c.sizes != [] && c.initial <= c.sizes[0]
  {
    Repeat(PushCall(v), c.sizes[0] - c.initial) + PushCall(w)
  }

  lemma FarPushIsPushPop<V>(c: Config, v: V, w: V)
    requires c.sizes != [] && c.initial <= c.sizes[0]
    ensures PushPopOnly(TurnsOf(0, FarPush(c, v, w)))
  {
    var k := c.sizes[0] - c.initial;
    assert AllPushPop(PushCall(v)) && AllPushPop(PushCall(w));
    RepeatPushPop(PushCall(v), k);
    TurnsPushPop(0, FarPush(c, v, w));
  }

  lemma InitIsFilled<V>(c: Config, n: nat, v: V)
    requires c.Valid()
    ensures Filled(c, Init<V>(c, n).g, c.initial, v)
  {
    SmallIsWord(c.bits, c.initial);
    SmallIsWord(c.bits, Pow2(c.bits) - 1);
  }

  /** What is left when that thread has run on its own from a state where nothing has been pushed. */
  lemma FarPushRuns<V>(c: Config, g: Shared<V>, v: V, w: V)
    requires Filled(c, g, c.initial, v) && c.initial < c.sizes[0] && IsId(c, c.sizes[0])
    ensures var (h, q) := Solo(c, g, 0, Idle, FarPush(c, v, w));
            && q == Idle && Misfiled(c, h, 0, c.sizes[0])
            && h.log != [] && h.log[|h.log| - 1] == Pushed(w) && AllPushed(h.log[..|h.log| - 1], v)
            && (0 in h.payload ==> h.payload[0] == v)
  {
    var k, x := c.sizes[0] - c.initial, c.sizes[0];
    var pushes := Repeat(PushCall(v), k);
    var filled := Solo(c, g, 0, Idle, pushes).0;
    PushesFill(c, g, 0, c.initial, k, x, v);
    SoloAppend(c, g, 0, Idle, pushes, PushCall(w));
    PushMisfiles(c, filled, 0, x, v, w);
    assert (filled.log + [Pushed(w)])[..|filled.log|] == filled.log;
  }

  /** With an id outside the first block, a single thread that does nothing but `push` loses that id, and finds
      an earlier value, if any, where the one it pushed last should be: w went to an element no list leads to. */
  lemma FarPushLosesAnId<V>(c: Config, v: V, w: V)
    requires c.Valid() && c.initial < c.sizes[0] && !OneBlock(c)
    ensures var turns := TurnsOf(0, FarPush(c, v, w));
            && Scheduled(turns, 1) && TimelyRun(c, Init<V>(c, 1), turns) && PushPopOnly(turns)
            && var s := Run(c, Init<V>(c, 1), turns);
               && !IsSplit(c, s) && s.pcs == [Idle]
               && s.g.log != [] && s.g.log[|s.g.log| - 1] == Pushed(w)
               && var head := Index(c.bits, s.g.stored.word);
                  head in s.g.payload ==> s.g.payload[head] == v
  {
    var s0: State<V>, x := Init(c, 1), c.sizes[0];
    var chs := FarPush(c, v, w);
    InitIsFilled<V>(c, 1, v);
    SoloIsTimely(c, s0, 0, chs);
    RunSolo(c, s0, 0, chs);
    FarPushRuns(c, s0.g, v, w);
    FarPushIsPushPop(c, v, w);
    MisfiledIsNotSplit(c, Run(c, s0, TurnsOf(0, chs)), 0, x);
  }

  // ----- exactly when

  ghost predicate SplitAfter<V>(c: Config, n: nat, turns: seq<Turn<V>>)
    requires c.Valid()
  {
    Scheduled(turns, n) && TimelyRun(c, Init(c, n), turns) ==> IsSplit(c, Run(c, Init(c, n), turns))
  }

  lemma OneBlockSplits<V>(c: Config, n: nat, turns: seq<Turn<V>>)
    requires c.Valid() && OneBlock(c)
    ensures SplitAfter(c, n, turns)
  {
    if Scheduled(turns, n) && TimelyRun(c, Init(c, n), turns) {
      InitInv<V>(c, n);
      OneBlockIsOrderly(c, Init(c, n), turns);
      IdsStaySplit(c, n, turns);
    }
  }

  /** Every timely run keeps the ids split exactly if they all lie in the first block, whether the run may call
      anything or only `push` and `pop`. */
  lemma SplitExactlyWhenOneBlock<V>(c: Config, v: V)
    requires c.Valid() && c.initial < c.sizes[0]
    ensures OneBlock(c) <==> forall n: nat, turns: seq<Turn<V>> :: SplitAfter(c, n, turns)
    ensures OneBlock(c) <==> forall n: nat, turns: seq<Turn<V>> :: PushPopOnly(turns) ==> SplitAfter(c, n, turns)
  {
    if OneBlock(c) {
      forall n: nat, turns: seq<Turn<V>>
        ensures SplitAfter(c, n, turns)
      {
        OneBlockSplits(c, n, turns);
      }
    } else {
      FarPushLosesAnId(c, v, v);
      assert !SplitAfter(c, 1, TurnsOf(0, FarPush(c, v, v)));
    }
  }

  // ----- the size a caller asks for

  /** The constructor's `_maxIndex`. */
  function Sized(c: Config, size: int): Config {
    var all := Pow2(c.bits) - 1;
    c.(maxIndex := if size <= 0 then all else if size < all - c.initial then c.initial + size else all)
  }

  lemma SizedIsValid(c: Config, size: int)
    requires c.Valid()
    ensures Sized(c, size).Valid()
  {
  }

  lemma DefaultOneBlock(size: int)
    ensures OneBlock(Sized(FreeListAba.DEFAULT, size)) <==> 0 < size <= 0x80
  {
    assert Pow2(12) == 0x1000;
  }

  /** With the default constants, a list keeps its ids split over every timely run, even if only `push` and
      `pop` are called, exactly if it was made for 1 to 128 elements; a size of zero asks for an unlimited
      list, which does not. */
  lemma DefaultSizes<V>(size: int, v: V)
    ensures var c := Sized(FreeListAba.DEFAULT, size);
            && c.Valid()
            && (0 < size <= 0x80 <==> forall n: nat, turns: seq<Turn<V>> :: SplitAfter(c, n, turns))
            && (0 < size <= 0x80
                <==> forall n: nat, turns: seq<Turn<V>> :: PushPopOnly(turns) ==> SplitAfter(c, n, turns))
  {
    FreeListAba.DefaultIsRoomy();
    SizedIsValid(FreeListAba.DEFAULT, size);
    DefaultOneBlock(size);
    SplitExactlyWhenOneBlock(Sized(FreeListAba.DEFAULT, size), v);
  }
}
