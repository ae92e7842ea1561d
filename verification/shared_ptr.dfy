/** The strong and weak counts of one control block, as steps of any number of threads. A thread copies,
    drops, weakly copies and locks handles; every load, increment, decrement and CAS is a step of its own. */
module SharedPtr {

  /** The control block, the live handles, and how often the object was deleted and the block freed. */
  datatype Block = Block(strong: int, weak: int, strongs: set<nat>, weaks: set<nat>, nextId: nat,
                         deleted: nat, freed: nat)

  /** What follows a `weakRef`: the `strongRef` of a copy, a new weak handle, or the end of a `lock`. */
  datatype Then = CopyStrong | NewWeak | EndLock

  /** A program counter. `src` is the handle being read: its owner must not drop it meanwhile. */
  datatype Pc =
    | Idle
    | WeakRefLoad(src: nat, then_: Then)
    | WeakRefInc(src: nat, then_: Then)
    | StrongRefLoad(src: nat)
    | StrongRefInc(src: nat)
    | LockLoad(src: nat)
    | LockCas(src: nat, tmp: int)
    | LockCheck(src: nat)
    | StrongDerefTest
    | StrongDerefLoad
    | StrongDerefDec
    | DeleteObj
    | WeakDerefLoad
    | WeakDerefDec
    | FreeBlock

  datatype State = State(b: Block, pcs: seq<Pc>)

  datatype Choice = Copy(h: nat) | Drop(h: nat) | CopyWeakly(h: nat) | Lock(h: nat) | Proceed | Spurious

  predicate Reads(pc: Pc, h: nat) {
    match pc
    case WeakRefLoad(src, _) => src == h
    case WeakRefInc(src, _) => src == h
    case StrongRefLoad(src) => src == h
    case StrongRefInc(src) => src == h
    case LockLoad(src) => src == h
    case LockCas(src, _) => src == h
    case LockCheck(src) => src == h
    case _ => false
  }

  predicate Pinned(pcs: seq<Pc>, h: nat) {
    exists t :: 0 <= t < |pcs| && Reads(pcs[t], h)
  }

  // ----- steps

  function AddStrong(b: Block): Block {
    b.(strongs := b.strongs + {b.nextId}, nextId := b.nextId + 1)
  }

  function AddWeak(b: Block): Block {
    b.(weaks := b.weaks + {b.nextId}, nextId := b.nextId + 1)
  }

  /** After `weakRef`, whether or not it counted. */
  function AfterWeakRef(b: Block, src: nat, then_: Then): (Block, Pc) {
    match then_
    case CopyStrong => (b, StrongRefLoad(src))
    case NewWeak => (AddWeak(b), Idle)
    case EndLock => (b, LockCheck(src))
  }

  function Start(b: Block, pinned: bool, ch: Choice): (Block, Pc) {
    match ch
    case Copy(h) => if h in b.strongs then (b, WeakRefLoad(h, CopyStrong)) else (b, Idle)
    case CopyWeakly(h) => if h in b.strongs || h in b.weaks then (b, WeakRefLoad(h, NewWeak)) else (b, Idle)
    case Lock(h) => if h in b.weaks then (b, LockLoad(h)) else (b, Idle)
    case Drop(h) =>
      if pinned then (b, Idle)
      else if h in b.strongs then (b.(strongs := b.strongs - {h}), StrongDerefTest)
      else if h in b.weaks then (b.(weaks := b.weaks - {h}), WeakDerefLoad)
      else (b, Idle)
    case _ => (b, Idle)
  }

  /** One step of a thread. */
  function Act(b: Block, pinned: bool, pc: Pc, ch: Choice): (Block, Pc) {
    match pc
    case Idle => Start(b, pinned, ch)

    // iRefCount::ref on the weak count: nothing from zero, nothing on a static count
    case WeakRefLoad(src, k) =>
      if b.weak == 0 || b.weak == -1 then AfterWeakRef(b, src, k) else (b, WeakRefInc(src, k))
    case WeakRefInc(src, k) => AfterWeakRef(b.(weak := b.weak + 1), src, k)

    // iRefCount::ref on the strong count
    case StrongRefLoad(src) =>
      if b.strong == 0 || b.strong == -1 then (AddStrong(b), Idle) else (b, StrongRefInc(src))
    case StrongRefInc(src) => (AddStrong(b.(strong := b.strong + 1)), Idle)

    // iSharedPtr::internalSet on a weak handle: never up from zero or less
    case LockLoad(src) => if b.strong > 0 then (b, LockCas(src, b.strong)) else (b, Idle)
    case LockCas(src, tmp) =>
      if ch.Spurious? || b.strong != tmp then (b, LockLoad(src))
      else (b.(strong := tmp + 1), WeakRefLoad(src, EndLock))
    case LockCheck(src) => (AddStrong(b), Idle)

    // ExternalRefCountData::strongDeref, then weakDeref
    case StrongDerefTest => if b.strong <= 0 then (b, WeakDerefLoad) else (b, StrongDerefLoad)
    case StrongDerefLoad =>
      if b.strong == 0 then (b, DeleteObj) else if b.strong == -1 then (b, WeakDerefLoad) else (b, StrongDerefDec)
    case StrongDerefDec =>
      (b.(strong := b.strong - 1), if b.strong - 1 == 0 then DeleteObj else WeakDerefLoad)
    case DeleteObj => (b.(deleted := b.deleted + 1), WeakDerefLoad)
    case WeakDerefLoad =>
      if b.weak == 0 then (b, FreeBlock) else if b.weak == -1 then (b, Idle) else (b, WeakDerefDec)
    case WeakDerefDec => (b.(weak := b.weak - 1), if b.weak - 1 == 0 then FreeBlock else Idle)
    case FreeBlock => (b.(freed := b.freed + 1), Idle)
  }

  function PinnedBy(pcs: seq<Pc>, ch: Choice): bool {
    ch.Drop? && Pinned(pcs, ch.h)
  }

  function Step(s: State, t: nat, ch: Choice): State
    requires t < |s.pcs|
  {
    var (b, pc) := Act(s.b, PinnedBy(s.pcs, ch), s.pcs[t], ch);
    State(b, s.pcs[t := pc])
  }

  /** A new control block is built with both counts at one, for the one handle that made it. */
  ghost predicate New(b: Block) {
    && b.strong == 1 && b.weak == 1 && b.deleted == 0 && b.freed == 0
    && |b.strongs| == 1 && b.weaks == {} && forall h :: h in b.strongs ==> h < b.nextId
  }

  ghost predicate Initial(s: State) {
    New(s.b) && forall t :: 0 <= t < |s.pcs| ==> s.pcs[t] == Idle
  }

  // ----- what operations in progress contribute to the counts

  /** Strong counts a thread holds for no live handle. */
  function HeldStrong(pc: Pc): nat {
    match pc
    case WeakRefLoad(_, k) => if k.EndLock? then 1 else 0
    case WeakRefInc(_, k) => if k.EndLock? then 1 else 0
    case LockCheck(_) => 1
    case StrongDerefTest => 1
    case StrongDerefLoad => 1
    case StrongDerefDec => 1
    case _ => 0
  }

  function HeldWeak(pc: Pc): nat {
    match pc
    case StrongRefLoad(_) => 1
    case StrongRefInc(_) => 1
    case LockCheck(_) => 1
    case StrongDerefTest => 1
    case StrongDerefLoad => 1
    case StrongDerefDec => 1
    case DeleteObj => 1
    case WeakDerefLoad => 1
    case WeakDerefDec => 1
    case _ => 0
  }

  function Deleting(pc: Pc): nat {
    if pc.DeleteObj? then 1 else 0
  }

  function Freeing(pc: Pc): nat {
    if pc.FreeBlock? then 1 else 0
  }

  function Sum(pcs: seq<Pc>, w: Pc -> nat): nat {
    if pcs == [] then 0 else w(pcs[0]) + Sum(pcs[1..], w)
  }

  lemma {:induction false} SumUpdate(pcs: seq<Pc>, t: nat, pc: Pc, w: Pc -> nat)
    requires t < |pcs|
    ensures Sum(pcs[t := pc], w) + w(pcs[t]) == Sum(pcs, w) + w(pc)
    ensures w(pcs[t]) <= Sum(pcs, w)
  {
    if t == 0 {
      assert pcs[0 := pc][1..] == pcs[1..];
    } else {
      assert pcs[t := pc][1..] == pcs[1..][t - 1 := pc];
      SumUpdate(pcs[1..], t - 1, pc, w);
    }
  }

  lemma {:induction false} SumIdle(pcs: seq<Pc>, w: Pc -> nat)
    requires w(Idle) == 0 && forall t :: 0 <= t < |pcs| ==> pcs[t] == Idle
    ensures Sum(pcs, w) == 0
  {
    if pcs != [] {
      SumIdle(pcs[1..], w);
    }
  }

  // ----- the invariant

  /** The sums over the threads, beside the block. */
  datatype Tally = Tally(strong: nat, weak: nat, deleting: nat, freeing: nat)

  function Tallied(pcs: seq<Pc>): Tally {
    Tally(Sum(pcs, HeldStrong), Sum(pcs, HeldWeak), Sum(pcs, Deleting), Sum(pcs, Freeing))
  }

  ghost predicate BlockInv(b: Block, y: Tally) {
    && b.strong == |b.strongs| + y.strong
    && b.weak == |b.strongs| + |b.weaks| + y.weak
    && b.deleted + y.deleting == (if b.strong == 0 then 1 else 0)
    && b.freed + y.freeing == (if b.weak == 0 then 1 else 0)
    && b.strongs !! b.weaks
    && (forall h :: h in b.strongs || h in b.weaks ==> h < b.nextId)
  }

  /** The handle a thread reads is live, and of the kind the operation needs. */
  ghost predicate PcInv(b: Block, pc: Pc) {
    match pc
    case WeakRefLoad(src, k) => SourceLive(b, src, k)
    case WeakRefInc(src, k) => SourceLive(b, src, k)
    case StrongRefLoad(src) => src in b.strongs
    case StrongRefInc(src) => src in b.strongs
    case LockLoad(src) => src in b.weaks
    case LockCas(src, tmp) => src in b.weaks && tmp > 0
    case LockCheck(src) => src in b.weaks
    case _ => true
  }

  ghost predicate SourceLive(b: Block, src: nat, k: Then) {
    match k
    case CopyStrong => src in b.strongs
    case NewWeak => src in b.strongs || src in b.weaks
    case EndLock => src in b.weaks
  }

  ghost predicate Inv(s: State) {
    && BlockInv(s.b, Tallied(s.pcs))
    && (forall t :: 0 <= t < |s.pcs| ==> PcInv(s.b, s.pcs[t]))
  }

  lemma TallyIdle(pcs: seq<Pc>)
    requires forall t :: 0 <= t < |pcs| ==> pcs[t] == Idle
    ensures Tallied(pcs) == Tally(0, 0, 0, 0)
  {
    SumIdle(pcs, HeldStrong);
    SumIdle(pcs, HeldWeak);
    SumIdle(pcs, Deleting);
    SumIdle(pcs, Freeing);
  }

  lemma NewBlockInv(b: Block)
    requires New(b)
    ensures BlockInv(b, Tally(0, 0, 0, 0))
  {
  }

  lemma InitInv(s: State)
    requires Initial(s)
    ensures Inv(s)
  {
    NewBlockInv(s.b);
    TallyIdle(s.pcs);
  }

  /** The tally with one thread's contribution exchanged for another. */
  ghost predicate Exchanged(y: Tally, z: Tally, pc: Pc, pc': Pc) {
    && z.strong + HeldStrong(pc) == y.strong + HeldStrong(pc') && HeldStrong(pc) <= y.strong
    && z.weak + HeldWeak(pc) == y.weak + HeldWeak(pc') && HeldWeak(pc) <= y.weak
    && z.deleting + Deleting(pc) == y.deleting + Deleting(pc') && Deleting(pc) <= y.deleting
    && z.freeing + Freeing(pc) == y.freeing + Freeing(pc') && Freeing(pc) <= y.freeing
  }

  lemma TallyUpdate(pcs: seq<Pc>, t: nat, pc: Pc)
    requires t < |pcs|
    ensures Exchanged(Tallied(pcs), Tallied(pcs[t := pc]), pcs[t], pc)
  {
    SumUpdate(pcs, t, pc, HeldStrong);
    SumUpdate(pcs, t, pc, HeldWeak);
    SumUpdate(pcs, t, pc, Deleting);
    SumUpdate(pcs, t, pc, Freeing);
  }

  lemma CardAdd(hs: set<nat>, h: nat)
    requires h !in hs
    ensures |hs + {h}| == |hs| + 1
  {
  }

  lemma CardRemove(hs: set<nat>, h: nat)
    requires h in hs
    ensures |hs - {h}| == |hs| - 1
  {
    assert hs == (hs - {h}) + {h};
  }

  lemma CardPositive(hs: set<nat>, h: nat)
    requires h in hs
    ensures |hs| >= 1
  {
    CardRemove(hs, h);
  }

  lemma StartKeeps(b: Block, y: Tally, z: Tally, pinned: bool, ch: Choice)
    requires BlockInv(b, y)
    requires Exchanged(y, z, Idle, Start(b, pinned, ch).1)
    ensures BlockInv(Start(b, pinned, ch).0, z) && PcInv(Start(b, pinned, ch).0, Start(b, pinned, ch).1)
  {
    if ch.Drop? {
      if ch.h in b.strongs {
        CardRemove(b.strongs, ch.h);
      } else if ch.h in b.weaks {
        CardRemove(b.weaks, ch.h);
      }
    }
  }

  lemma RefKeeps(b: Block, y: Tally, z: Tally, pinned: bool, pc: Pc, ch: Choice)
    requires pc.WeakRefLoad? || pc.WeakRefInc? || pc.StrongRefLoad? || pc.StrongRefInc?
    requires BlockInv(b, y) && PcInv(b, pc)
    requires Exchanged(y, z, pc, Act(b, pinned, pc, ch).1)
    ensures BlockInv(Act(b, pinned, pc, ch).0, z) && PcInv(Act(b, pinned, pc, ch).0, Act(b, pinned, pc, ch).1)
  {
    CardAdd(b.strongs, b.nextId);
    CardAdd(b.weaks, b.nextId);
    if pc.src in b.strongs {
      CardPositive(b.strongs, pc.src);
    } else {
      CardPositive(b.weaks, pc.src);
    }
  }

  lemma OtherKeeps(b: Block, y: Tally, z: Tally, pinned: bool, pc: Pc, ch: Choice)
    requires !pc.Idle? && !pc.WeakRefLoad? && !pc.WeakRefInc? && !pc.StrongRefLoad? && !pc.StrongRefInc?
    requires BlockInv(b, y) && PcInv(b, pc)
    requires Exchanged(y, z, pc, Act(b, pinned, pc, ch).1)
    ensures BlockInv(Act(b, pinned, pc, ch).0, z) && PcInv(Act(b, pinned, pc, ch).0, Act(b, pinned, pc, ch).1)
  {
    CardAdd(b.strongs, b.nextId);
  }

  /** A step leaves the handles that the other threads read alone. */
  lemma OthersKeep(b: Block, pcs: seq<Pc>, t: nat, u: nat, ch: Choice)
    requires t < |pcs| && u < |pcs| && t != u && PcInv(b, pcs[u])
    ensures PcInv(Act(b, PinnedBy(pcs, ch), pcs[t], ch).0, pcs[u])
  {
    if ch.Drop? {
      assert Reads(pcs[u], ch.h) ==> Pinned(pcs, ch.h);
    }
  }

  /** Every step of every thread keeps the invariant. */
  lemma StepKeepsInv(s: State, t: nat, ch: Choice)
    requires Inv(s) && t < |s.pcs|
    ensures Inv(Step(s, t, ch))
  {
    var pinned := PinnedBy(s.pcs, ch);
    var pc := s.pcs[t];
    var (b, pc') := Act(s.b, pinned, pc, ch);
    var pcs := s.pcs[t := pc'];
    TallyUpdate(s.pcs, t, pc');
    if pc.Idle? {
      StartKeeps(s.b, Tallied(s.pcs), Tallied(pcs), pinned, ch);
    } else if pc.WeakRefLoad? || pc.WeakRefInc? || pc.StrongRefLoad? || pc.StrongRefInc? {
      RefKeeps(s.b, Tallied(s.pcs), Tallied(pcs), pinned, pc, ch);
    } else {
      OtherKeeps(s.b, Tallied(s.pcs), Tallied(pcs), pinned, pc, ch);
    }
    forall u | 0 <= u < |pcs| ensures PcInv(b, pcs[u]) {
      if u != t {
        OthersKeep(s.b, s.pcs, t, u, ch);
      }
    }
  }

  // ----- whole runs

  datatype Turn = Turn(t: nat, ch: Choice)

  ghost predicate Scheduled(turns: seq<Turn>, n: nat) {
    forall k :: 0 <= k < |turns| ==> turns[k].t < n
  }

  function Run(s: State, turns: seq<Turn>): (r: State)
    requires forall k :: 0 <= k < |turns| ==> turns[k].t < |s.pcs|
    ensures |r.pcs| == |s.pcs|
    decreases turns
  {
    if turns == [] then s else Run(Step(s, turns[0].t, turns[0].ch), turns[1..])
  }

  lemma {:induction false} RunKeepsInv(s: State, turns: seq<Turn>)
    requires Inv(s) && Scheduled(turns, |s.pcs|)
    ensures Inv(Run(s, turns))
    decreases turns
  {
    if turns != [] {
      StepKeepsInv(s, turns[0].t, turns[0].ch);
      RunKeepsInv(Step(s, turns[0].t, turns[0].ch), turns[1..]);
    }
  }

  lemma ReachableInv(s: State, turns: seq<Turn>)
    requires Initial(s) && Scheduled(turns, |s.pcs|)
    ensures Inv(Run(s, turns))
  {
    InitInv(s);
    RunKeepsInv(s, turns);
  }

  /** In every reachable state, the strong count is the number of live strong handles plus the counts held by
      operations in progress, and the weak count is that of all live handles plus those in progress. */
  lemma CountsAreExact(s0: State, turns: seq<Turn>)
    requires Initial(s0) && Scheduled(turns, |s0.pcs|)
    ensures var s := Run(s0, turns);
            && s.b.strong == |s.b.strongs| + Sum(s.pcs, HeldStrong)
            && s.b.weak == |s.b.strongs| + |s.b.weaks| + Sum(s.pcs, HeldWeak)
  {
    ReachableInv(s0, turns);
  }

  /** A thread between the start of an operation and its last access to the block. */
  predicate Busy(pc: Pc) {
    !pc.Idle? && !pc.FreeBlock?
  }

  /** Whoever deletes the object still holds a weak count. */
  lemma {:induction false} DeletersHoldWeak(pcs: seq<Pc>)
    ensures Sum(pcs, Deleting) <= Sum(pcs, HeldWeak)
  {
    if pcs != [] {
      DeletersHoldWeak(pcs[1..]);
    }
  }

  lemma HandlesCount(b: Block)
    ensures b.strongs != {} ==> |b.strongs| > 0
    ensures b.weaks != {} ==> |b.weaks| > 0
  {
    if b.strongs != {} {
      var h :| h in b.strongs;
      CardPositive(b.strongs, h);
    }
    if b.weaks != {} {
      var h :| h in b.weaks;
      CardPositive(b.weaks, h);
    }
  }

  ghost predicate Safe(s: State, t: nat)
    requires t < |s.pcs|
  {
    && s.b.deleted <= 1 && s.b.freed <= 1
    && (s.b.freed == 1 ==> s.b.deleted == 1)
    && (s.b.strongs != {} || HeldStrong(s.pcs[t]) > 0 ==> s.b.deleted == 0 && s.b.strong > 0)
    && (s.b.strongs != {} || s.b.weaks != {} || Busy(s.pcs[t]) ==> s.b.freed == 0 && s.b.weak > 0)
  }

  lemma BusyHoldsBlock(b: Block, y: Tally, pc: Pc)
    requires BlockInv(b, y) && PcInv(b, pc) && HeldWeak(pc) <= y.weak && Busy(pc)
    ensures b.weak > 0
  {
    HandlesCount(b);
  }

  /** Some thread accounts for a positive tally. */
  lemma {:induction false} SomeHolder(pcs: seq<Pc>, w: Pc -> nat) returns (t: nat)
    requires Sum(pcs, w) > 0
    ensures t < |pcs| && w(pcs[t]) > 0
  {
    if w(pcs[0]) > 0 {
      t := 0;
    } else {
      t := SomeHolder(pcs[1..], w);
      t := t + 1;
    }
  }

  /** The block outlives the strong counts: a strong count in progress comes with a weak count, or with the
      live weak handle that is being locked. */
  lemma StrongImpliesWeak(s: State)
    requires Inv(s)
    ensures s.b.strong > 0 ==> s.b.weak > 0
  {
    HandlesCount(s.b);
    if Sum(s.pcs, HeldStrong) > 0 {
      var t := SomeHolder(s.pcs, HeldStrong);
      TallyUpdate(s.pcs, t, Idle);
      assert PcInv(s.b, s.pcs[t]);
    }
  }

  lemma InvIsSafe(s: State, t: nat)
    requires Inv(s) && t < |s.pcs|
    ensures Safe(s, t)
  {
    TallyUpdate(s.pcs, t, Idle);
    DeletersHoldWeak(s.pcs);
    HandlesCount(s.b);
    StrongImpliesWeak(s);
    if Busy(s.pcs[t]) {
      BusyHoldsBlock(s.b, Tallied(s.pcs), s.pcs[t]);
    }
  }

  /** The object is deleted at most once and the block freed at most once, in that order; while any strong
      handle lives the object does, and while any handle or operation needs the block, it does. */
  lemma LifetimesAreSafe(s: State, turns: seq<Turn>, t: nat)
    requires Initial(s) && Scheduled(turns, |s.pcs|) && t < |s.pcs|
    ensures Safe(Run(s, turns), t)
  {
    ReachableInv(s, turns);
    InvIsSafe(Run(s, turns), t);
  }

  lemma InvLeaksNothing(s: State)
    requires Inv(s)
    ensures s.b.strongs == {} && s.b.weaks == {} && (forall t :: 0 <= t < |s.pcs| ==> s.pcs[t] == Idle) ==>
              s.b.strong == 0 && s.b.weak == 0 && s.b.deleted == 1 && s.b.freed == 1
  {
    if forall t :: 0 <= t < |s.pcs| ==> s.pcs[t] == Idle {
      TallyIdle(s.pcs);
    }
  }

  /** When the last handle is gone and no operation is in progress, the object has been deleted exactly once
      and the block freed exactly once. */
  lemma NothingLeaks(s0: State, turns: seq<Turn>)
    requires Initial(s0) && Scheduled(turns, |s0.pcs|)
    ensures var s := Run(s0, turns);
            s.b.strongs == {} && s.b.weaks == {} && (forall t :: 0 <= t < |s.pcs| ==> s.pcs[t] == Idle) ==>
              s.b.strong == 0 && s.b.weak == 0 && s.b.deleted == 1 && s.b.freed == 1
  {
    ReachableInv(s0, turns);
    InvLeaksNothing(Run(s0, turns));
  }

  /** `lock` never revives the object: once the strong count is zero, no step of any thread raises it. */
  lemma ZeroStaysZero(s: State, t: nat, ch: Choice)
    requires Inv(s) && t < |s.pcs| && s.b.strong == 0
    ensures Step(s, t, ch).b.strong == 0 && Step(s, t, ch).b.strongs == {}
  {
    StepKeepsInv(s, t, ch);
    assert PcInv(s.b, s.pcs[t]);
    TallyUpdate(s.pcs, t, Idle);
    if s.pcs[t].StrongRefInc? {
      CardPositive(s.b.strongs, s.pcs[t].src);
    }
  }

  lemma {:induction false} ZeroStaysZeroForever(s: State, turns: seq<Turn>)
    requires Inv(s) && Scheduled(turns, |s.pcs|) && s.b.strong == 0
    ensures Run(s, turns).b.strong == 0
    decreases turns
  {
    if turns != [] {
      ZeroStaysZero(s, turns[0].t, turns[0].ch);
      StepKeepsInv(s, turns[0].t, turns[0].ch);
      ZeroStaysZeroForever(Step(s, turns[0].t, turns[0].ch), turns[1..]);
    }
  }

  /** A `lock` returns null only if the strong count was zero at its last load, and a live handle otherwise. */
  lemma LockIsHonest(s: State, t: nat, ch: Choice)
    requires Inv(s) && t < |s.pcs| && s.pcs[t].LockLoad?
    ensures Step(s, t, ch).pcs[t].Idle? <==> s.b.strong == 0
    ensures Step(s, t, ch).pcs[t].Idle? ==> s.b.strongs == {}
  {
  }
}
