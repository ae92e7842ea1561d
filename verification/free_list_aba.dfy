/** Why a run has to be timely: a head CAS that has slept through one full cycle of serials hands out an id
    that a client already holds. */
module FreeListAba {
  import opened Bits
  import opened HeadWord
  import opened FreeList
  import opened FreeListSafety
  import opened FreeListRuns
  import opened FreeListSolo

  // ----- the schedule

  /** id a is free again after r releases, while a client holds id b. */
  ghost predicate Primed<V>(c: Config, g: Shared<V>, a: nat, b: nat, r: nat) {
    && HeadIs(c, g, a) && a != b
    && IsWord(g.empty.word) && Serial(c.bits, g.empty.word) == SerialAfter(c.bits, r)
    && g.empty.releases == r && Succ(g.next, a) < Pow2(c.bits)
    && b in g.owner && g.owner[b] == ByClient
  }

  function Cycles<V>(a: nat, k: nat): seq<Choice<V>> {
    if k == 0 then [] else (NextCall() + ReleaseCall(a)) + Cycles(a, k - 1)
  }

  lemma ReleasedPrimes<V>(c: Config, g: Shared<V>, t: nat, a: nat, b: nat, r: nat)
    requires c.Valid() && IsId(c, a) && a != b && BlockOf(c.sizes, a) in g.published
    requires IsWord(g.empty.word) && Serial(c.bits, g.empty.word) == SerialAfter(c.bits, r) && g.empty.releases == r
    requires b in g.owner && g.owner[b] == ByClient
    ensures Primed(c, Released(c, g, t, a), a, b, r + 1)
  {
    IncrementSerialParts(c.bits, g.empty.word, a);
    IndexOfSmall(c.bits, a);
    IndexRange(c.bits, g.empty.word);
  }

  /** Popping a and giving it back changes nothing but the serial. */
  lemma OneCycle<V>(c: Config, g: Shared<V>, t: nat, a: nat, b: nat, r: nat)
    requires Primed(c, g, a, b, r)
    ensures Primed(c, Solo(c, g, t, Idle, NextCall() + ReleaseCall(a)).0, a, b, r + 1)
    ensures Solo(c, g, t, Idle, NextCall() + ReleaseCall(a)).1 == Idle
  {
    var newid := Relink(c.bits, Succ(g.next, a), g.empty.word);
    var h := PopCommit(g, t, NextOp, a, newid);
    NextSolo(c, g, t, a);
    SoloAppend(c, g, t, Idle, NextCall(), ReleaseCall(a));
    ReleaseSolo(c, h, t, a);
    RelinkParts(c.bits, Succ(g.next, a), g.empty.word);
    ReleasedPrimes(c, h, t, a, b, r);
  }

  lemma {:induction false} ManyCycles<V>(c: Config, g: Shared<V>, t: nat, a: nat, b: nat, r: nat, k: nat)
    requires Primed(c, g, a, b, r)
    ensures Primed(c, Solo(c, g, t, Idle, Cycles(a, k)).0, a, b, r + k)
    ensures Solo(c, g, t, Idle, Cycles(a, k)).1 == Idle
    decreases k
  {
    if k > 0 {
      OneCycle(c, g, t, a, b, r);
      SoloAppend(c, g, t, Idle, NextCall() + ReleaseCall(a), Cycles(a, k - 1));
      ManyCycles(c, Solo(c, g, t, Idle, NextCall() + ReleaseCall(a)).0, t, a, b, r + 1, k - 1);
    }
  }

  /** At least two ids, the first two in one block. */
  ghost predicate Roomy(c: Config) {
    && c.Valid() && IsId(c, c.initial + 1)
    && BlockOf(c.sizes, c.initial) == BlockOf(c.sizes, c.initial + 1)
  }

  /** Thread 0 calls `next` and stalls before its CAS. */
  function Stall<V>(): seq<Choice<V>> {
    UpToCas(NextOp, [])
  }

  /** Thread 1 takes the first two ids, and then gives the first one back and takes it again, until it has
      been released k times. */
  function Busy<V>(c: Config, k: nat): seq<Choice<V>>
    requires k > 0
  {
    NextCall() + (NextCall() + (ReleaseCall(c.initial) + Cycles(c.initial, k - 1)))
  }

  lemma StallSolo<V>(c: Config, g: Shared<V>, t: nat)
    requires Roomy(c) && g == Init<V>(c, 2).g
    ensures var a := c.initial;
            Solo(c, g, t, Idle, Stall())
            == (PublishBlock(c, g, BlockOf(c.sizes, a)), CasHead(NextOp, a, a, 0, Relink(c.bits, a + 1, a)))
  {
    var a := c.initial;
    IndexOfSmall(c.bits, a);
    ReachCas(c, g, t, NextOp, a, []);
    StalledIsUnreleased(c, PublishBlock(c, g, BlockOf(c.sizes, a)));
  }

  /** No id has been released yet, and the empty list starts at x. */
  ghost predicate Unreleased<V>(c: Config, g: Shared<V>, x: nat) {
    && c.Valid() && Index(c.bits, g.empty.word) == x && IsWord(g.empty.word)
    && Serial(c.bits, g.empty.word) == SerialAfter(c.bits, 0) && g.empty.releases == 0
    && BlockOf(c.sizes, c.initial) in g.published
  }

  lemma TakeSolo<V>(c: Config, g: Shared<V>, t: nat, x: nat)
    requires Unreleased(c, g, x) && HeadIs(c, g, x) && Succ(g.next, x) == x + 1
    ensures var (h, q) := Solo(c, g, t, Idle, NextCall());
            Unreleased(c, h, x + 1) && q == Idle && h.next == g.next && h.owner == g.owner[x := ByClient]
  {
    NextSolo(c, g, t, x);
    RelinkParts(c.bits, x + 1, g.empty.word);
  }

  lemma GiveBackSolo<V>(c: Config, g: Shared<V>, t: nat, a: nat, b: nat, k: nat)
    requires Unreleased(c, g, b + 1) && a == c.initial && IsId(c, b) && a != b && k > 0
    requires a in g.owner && g.owner[a] == ByClient && b in g.owner && g.owner[b] == ByClient
    ensures Primed(c, Solo(c, g, t, Idle, ReleaseCall(a) + Cycles(a, k - 1)).0, a, b, k)
    ensures Solo(c, g, t, Idle, ReleaseCall(a) + Cycles(a, k - 1)).1 == Idle
  {
    ReleaseSolo(c, g, t, a);
    ReleasedPrimes(c, g, t, a, b, 0);
    SoloAppend(c, g, t, Idle, ReleaseCall(a), Cycles(a, k - 1));
    ManyCycles(c, Released(c, g, t, a), t, a, b, 1, k - 1);
  }

  lemma StalledIsUnreleased<V>(c: Config, g: Shared<V>)
    requires Roomy(c) && g == PublishBlock(c, Init<V>(c, 2).g, BlockOf(c.sizes, c.initial))
    ensures Unreleased(c, g, c.initial)
    ensures forall i: nat :: Succ(g.next, i) == i + 1
  {
    SmallIsWord(c.bits, c.initial);
  }

  lemma BusySolo<V>(c: Config, g: Shared<V>, t: nat, k: nat)
    requires Roomy(c) && g == PublishBlock(c, Init<V>(c, 2).g, BlockOf(c.sizes, c.initial)) && k > 0
    ensures Primed(c, Solo(c, g, t, Idle, Busy(c, k)).0, c.initial, c.initial + 1, k)
    ensures Solo(c, g, t, Idle, Busy(c, k)).1 == Idle
  {
    var a, b := c.initial, c.initial + 1;
    var last := ReleaseCall(a) + Cycles(a, k - 1);
    StalledIsUnreleased(c, g);
    TakeSolo(c, g, t, a);
    var g1 := Solo(c, g, t, Idle, NextCall()).0;
    TakeSolo(c, g1, t, b);
    var g2 := Solo(c, g1, t, Idle, NextCall()).0;
    GiveBackSolo(c, g2, t, a, b, k);
    SoloAppend(c, g, t, Idle, NextCall(), NextCall() + last);
    SoloAppend(c, g1, t, Idle, NextCall(), last);
  }

  /** Thread 0 stalls, thread 1 makes as many releases as there are serials, and thread 0 goes on. */
  function AbaSchedule<V>(c: Config): seq<Turn<V>>
    requires c.bits <= WORD_BITS
  {
    TurnsOf(0, Stall()) + (TurnsOf(1, Busy(c, Serials(c.bits))) + TurnsOf(0, [Proceed]))
  }

  /** The stalled CAS succeeds although its list has changed, when the serial has come round to the same value. */
  lemma StaleCas<V>(c: Config, g: Shared<V>)
    requires Roomy(c) && Primed(c, g, c.initial, c.initial + 1, Serials(c.bits))
    ensures var a, b := c.initial, c.initial + 1;
            var h := Act(c, g, 0, CasHead(NextOp, a, a, 0, Relink(c.bits, b, a)), Proceed).0;
            Index(c.bits, h.empty.word) == b && b in h.owner && h.owner[b] == ByClient
  {
    var a, b := c.initial, c.initial + 1;
    SmallIsWord(c.bits, a);
    SameSerial(c.bits, 0, Serials(c.bits));
    SameWord(c.bits, a, g.empty.word);
    RelinkParts(c.bits, b, a);
    CasCommits(c, g, 0, NextOp, a, 0, Relink(c.bits, b, a));
  }

  /** The bound on releases is tight: with exactly as many releases as there are serials between a head load
      and its CAS, an id that a client holds becomes the head of the empty list, to be handed out again. */
  lemma UntimelyRunHandsOutTwice<V>(c: Config)
    requires Roomy(c)
    ensures Scheduled(AbaSchedule<V>(c), 2)
    ensures var s := Run(c, Init<V>(c, 2), AbaSchedule(c));
            && Index(c.bits, s.g.empty.word) == c.initial + 1 && WithClient(s, c.initial + 1)
  {
    var k := Serials(c.bits);
    var s0: State<V> := Init(c, 2);
    var xs, ys, zs := TurnsOf<V>(0, Stall()), TurnsOf<V>(1, Busy(c, k)), TurnsOf<V>(0, [Proceed]);
    TurnsScheduled<V>(0, Stall(), 2);
    TurnsScheduled<V>(1, Busy(c, k), 2);
    TurnsScheduled<V>(0, [Proceed], 2);
    StallSolo(c, s0.g, 0);
    RunSolo(c, s0, 0, Stall());
    var s1 := Run(c, s0, xs);
    BusySolo(c, s1.g, 1, k);
    RunSolo(c, s1, 1, Busy(c, k));
    var s2 := Run(c, s1, ys);
    StaleCas(c, s2.g);
    RunAppend(c, s0, xs, ys + zs);
    RunAppend(c, s1, ys, zs);
    assert zs == [Turn(0, Proceed)];
  }

  /** The constants of `iFreeListDefaultConstants`: 12 index bits and 19 serial bits. */
  const DEFAULT: Config := Config(12, 0, 0xfff, [0x80, 0x180, 0x600, 0x7ff])

  lemma DefaultIsRoomy()
    ensures Roomy(DEFAULT) && Serials(DEFAULT.bits) == 0x80000
  {
    assert Total([0x7ff]) == 0x7ff;
    assert Total([0x600, 0x7ff]) == 0xdff by { assert [0x600, 0x7ff][1..] == [0x7ff]; }
    assert Total([0x180, 0x600, 0x7ff]) == 0xf7f by { assert [0x180, 0x600, 0x7ff][1..] == [0x600, 0x7ff]; }
    assert DEFAULT.sizes[1..] == [0x180, 0x600, 0x7ff];
    assert Pow2(12) == 0x1000;
    assert Pow2(19) == 0x80000;
  }
}
