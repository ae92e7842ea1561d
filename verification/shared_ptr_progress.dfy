/** Copying, locking and dropping are lock-free: however the threads interleave, the accesses they make are bounded by
    the operations they begin and the CASes that fail spuriously. */
module SharedPtrProgress {
  import opened Products
  import opened SharedPtr

  /** The most accesses an operation makes before it ends or changes the strong count, whatever it remembers of it. */
  const MOST := 7

  /** The changes of the strong count an operation can still make. */
  function Chances(pc: Pc): nat {
    match pc
    case WeakRefLoad(_, k) => if k.CopyStrong? then 1 else 0
    case WeakRefInc(_, k) => if k.CopyStrong? then 1 else 0
    case StrongRefLoad(_) => 1
    case StrongRefInc(_) => 1
    case LockLoad(_) => 1
    case LockCas(_, _) => 1
    case StrongDerefTest => 1
    case StrongDerefLoad => 1
    case StrongDerefDec => 1
    case _ => 0
  }

  /** The accesses before the end of the operation, if no other thread changes the strong count meanwhile. */
  function Left(strong: int, pc: Pc): (r: nat)
    ensures r <= MOST && (r == 0 <==> pc.Idle?)
  {
    match pc
    case Idle => 0
    case WeakRefLoad(_, k) => 1 + AfterWeakRefLeft(k)
    case WeakRefInc(_, k) => AfterWeakRefLeft(k)
    case StrongRefLoad(_) => 2
    case StrongRefInc(_) => 1
    case LockLoad(_) => 5
    case LockCas(_, tmp) => if strong == tmp then 4 else 6
    case LockCheck(_) => 1
    case StrongDerefTest => 7
    case StrongDerefLoad => 6
    case StrongDerefDec => 5
    case DeleteObj => 4
    case WeakDerefLoad => 3
    case WeakDerefDec => 2
    case FreeBlock => 1
  }

  function AfterWeakRefLeft(k: Then): nat {
    if k.CopyStrong? then 3 else if k.EndLock? then 2 else 1
  }

  function LeftAt(strong: int): Pc -> nat {
    pc => Left(strong, pc)
  }

  predicate FailsSpuriously(pc: Pc, ch: Choice) {
    ch.Spurious? && pc.LockCas?
  }

  /** An access of an operation in progress brings its end nearer; and it leaves the strong count alone or is the one
      change of it that the operation makes. */
  lemma AccessAdvances(b: Block, pinned: bool, pc: Pc, ch: Choice)
    requires !pc.Idle? && !FailsSpuriously(pc, ch)
    ensures var (b', q) := Act(b, pinned, pc, ch);
            && Left(b'.strong, q) < Left(b.strong, pc) && Chances(q) <= Chances(pc)
            && (b'.strong == b.strong || Chances(q) < Chances(pc))
  {
  }

  // ----- all threads together

  lemma {:induction false} SumBound(pcs: seq<Pc>, strong: int)
    ensures Sum(pcs, LeftAt(strong)) <= MOST * |pcs|
  {
    if pcs != [] {
      SumBound(pcs[1..], strong);
    }
  }

  /** The accesses the operations in progress can still make: every change of the strong count may make all threads'
      snapshots stale. */
  function Pending(s: State): nat {
    MOST * |s.pcs| * Sum(s.pcs, Chances) + Sum(s.pcs, LeftAt(s.b.strong))
  }

  /** An access uses up one of those pending. */
  lemma AccessIsPaid(s: State, t: nat, ch: Choice)
    requires t < |s.pcs| && !s.pcs[t].Idle? && !FailsSpuriously(s.pcs[t], ch)
    ensures Pending(Step(s, t, ch)) < Pending(s)
  {
    var s' := Step(s, t, ch);
    AccessAdvances(s.b, PinnedBy(s.pcs, ch), s.pcs[t], ch);
    SumUpdate(s.pcs, t, s'.pcs[t], Chances);
    SumUpdate(s.pcs, t, s'.pcs[t], LeftAt(s.b.strong));
    if Chances(s'.pcs[t]) < Chances(s.pcs[t]) {
      TimesMore(MOST * |s.pcs|, Sum(s'.pcs, Chances), Sum(s.pcs, Chances));
      SumBound(s'.pcs, s'.b.strong);
    }
  }

  /** A spurious failure costs one more attempt. */
  lemma FailureIsCheap(s: State, t: nat, ch: Choice)
    requires t < |s.pcs| && FailsSpuriously(s.pcs[t], ch)
    ensures Pending(Step(s, t, ch)) < Pending(s) + MOST
  {
    var s' := Step(s, t, ch);
    SumUpdate(s.pcs, t, s'.pcs[t], Chances);
    SumUpdate(s.pcs, t, s'.pcs[t], LeftAt(s.b.strong));
  }

  /** The start of an operation costs at most two rounds of all threads. */
  lemma StartIsPaid(s: State, t: nat, ch: Choice)
    requires t < |s.pcs| && s.pcs[t].Idle?
    ensures var s' := Step(s, t, ch);
            if s'.pcs[t].Idle? then Pending(s') == Pending(s)
            else Pending(s') <= Pending(s) + 2 * (MOST * |s.pcs|)
  {
    var s' := Step(s, t, ch);
    SumUpdate(s.pcs, t, s'.pcs[t], Chances);
    SumUpdate(s.pcs, t, s'.pcs[t], LeftAt(s.b.strong));
    OneMore(MOST * |s.pcs|, Sum(s.pcs, Chances));
  }

  // ----- whole runs

  /** The turns in which a thread makes an access. */
  function Accesses(s: State, turns: seq<Turn>): nat
    requires Scheduled(turns, |s.pcs|)
    decreases turns
  {
    if turns == [] then 0
    else (if s.pcs[turns[0].t].Idle? then 0 else 1) + Accesses(Step(s, turns[0].t, turns[0].ch), turns[1..])
  }

  /** The turns in which a thread begins an operation. */
  function Operations(s: State, turns: seq<Turn>): nat
    requires Scheduled(turns, |s.pcs|)
    decreases turns
  {
    if turns == [] then 0
    else
      var s' := Step(s, turns[0].t, turns[0].ch);
      (if s.pcs[turns[0].t].Idle? && !s'.pcs[turns[0].t].Idle? then 1 else 0) + Operations(s', turns[1..])
  }

  /** The turns in which a CAS fails spuriously. */
  function Failures(s: State, turns: seq<Turn>): nat
    requires Scheduled(turns, |s.pcs|)
    decreases turns
  {
    if turns == [] then 0
    else (if FailsSpuriously(s.pcs[turns[0].t], turns[0].ch) then 1 else 0)
         + Failures(Step(s, turns[0].t, turns[0].ch), turns[1..])
  }

  lemma {:induction false} AccessesArePaid(s: State, turns: seq<Turn>)
    requires Scheduled(turns, |s.pcs|)
    ensures Accesses(s, turns)
            <= Pending(s) + 2 * (MOST * |s.pcs|) * Operations(s, turns) + MOST * Failures(s, turns)
    decreases turns
  {
    if turns != [] {
      var t, ch := turns[0].t, turns[0].ch;
      var s' := Step(s, t, ch);
      AccessesArePaid(s', turns[1..]);
      if s.pcs[t].Idle? {
        StartIsPaid(s, t, ch);
        OneMore(2 * (MOST * |s.pcs|), Operations(s', turns[1..]));
      } else if FailsSpuriously(s.pcs[t], ch) {
        FailureIsCheap(s, t, ch);
      } else {
        AccessIsPaid(s, t, ch);
      }
    }
  }

  /** Over every run from a new control block, n threads that begin k operations make at most 14nk accesses, and 7
      more for each CAS that failed spuriously: no schedule makes a `lock` retry for ever. */
  lemma RunsAreShort(s: State, turns: seq<Turn>)
    requires Initial(s) && Scheduled(turns, |s.pcs|)
    ensures Accesses(s, turns) <= 14 * |s.pcs| * Operations(s, turns) + 7 * Failures(s, turns)
  {
    SumIdle(s.pcs, Chances);
    SumIdle(s.pcs, LeftAt(s.b.strong));
    AccessesArePaid(s, turns);
  }
}
