/** What the operations on shared and weak pointers come to: how each starts, how it ends, and what a thread that
    is not disturbed gets. */
module SharedPtrCalls {
  import opened SharedPtr

  datatype Call = Copying | WeakCopying | Locking | Dropping

  /** The operation a thread is in. */
  function CallOf(pc: Pc): Call
    requires !pc.Idle?
  {
    match pc
    case WeakRefLoad(_, k) => if k.CopyStrong? then Copying else if k.NewWeak? then WeakCopying else Locking
    case WeakRefInc(_, k) => if k.CopyStrong? then Copying else if k.NewWeak? then WeakCopying else Locking
    case StrongRefLoad(_) => Copying
    case StrongRefInc(_) => Copying
    case LockLoad(_) => Locking
    case LockCas(_, _) => Locking
    case LockCheck(_) => Locking
    case _ => Dropping
  }

  ghost predicate SameHandles(b: Block, b': Block) {
    b'.strongs == b.strongs && b'.weaks == b.weaks
  }

  ghost predicate Live(b: Block, h: nat) {
    h in b.strongs || h in b.weaks
  }

  /** One strong handle more, which was no handle before. */
  ghost predicate GainsStrong(b: Block, b': Block) {
    b'.weaks == b.weaks && exists h: nat :: !Live(b, h) && b'.strongs == b.strongs + {h}
  }

  ghost predicate GainsWeak(b: Block, b': Block) {
    b'.strongs == b.strongs && exists h: nat :: !Live(b, h) && b'.weaks == b.weaks + {h}
  }

  /** What the last step of an operation does: a copy yields a new handle of its kind, and a `lock` a new strong
      handle, unless the strong count is zero at that step; a drop has nothing left to do to the handles. */
  ghost predicate EndsWell(call: Call, b: Block, b': Block) {
    match call
    case Copying => GainsStrong(b, b')
    case WeakCopying => GainsWeak(b, b')
    case Locking => GainsStrong(b, b') || (b.strong == 0 && b.strongs == {} && b' == b)
    case Dropping => SameHandles(b, b')
  }

  lemma NextIsNew(s: State)
    requires Inv(s)
    ensures !Live(s.b, s.b.nextId)
  {
  }

  /** No step leaves an operation except by ending it as it should. */
  lemma CallsEndWell(s: State, t: nat, ch: Choice)
    requires Inv(s) && t < |s.pcs| && !s.pcs[t].Idle?
    ensures var s' := Step(s, t, ch);
            if s'.pcs[t].Idle? then EndsWell(CallOf(s.pcs[t]), s.b, s'.b)
            else CallOf(s'.pcs[t]) == CallOf(s.pcs[t]) && SameHandles(s.b, s'.b)
  {
    assert PcInv(s.b, s.pcs[t]);
    NextIsNew(s);
    if s.pcs[t].LockLoad? {
      LockIsHonest(s, t, ch);
    }
  }

  /** What an idle thread can start, and what that does to the handles at once: a handle that is dropped is gone,
      unless another operation still reads it, and nothing else changes. */
  ghost predicate StartsWell(s: State, t: nat, ch: Choice, s': State)
    requires t < |s.pcs| && t < |s'.pcs|
  {
    var pc := s'.pcs[t];
    match ch
    case Copy(h) => s'.b == s.b && if h in s.b.strongs then !pc.Idle? && CallOf(pc) == Copying else pc.Idle?
    case CopyWeakly(h) => s'.b == s.b && if Live(s.b, h) then !pc.Idle? && CallOf(pc) == WeakCopying else pc.Idle?
    case Lock(h) => s'.b == s.b && if h in s.b.weaks then !pc.Idle? && CallOf(pc) == Locking else pc.Idle?
    case Drop(h) =>
      if Live(s.b, h) && !Pinned(s.pcs, h) then
        && !pc.Idle? && CallOf(pc) == Dropping && HeldStrong(pc) == (if h in s.b.strongs then 1 else 0)
        && s'.b.strongs == s.b.strongs - {h} && s'.b.weaks == s.b.weaks - {h}
      else s'.b == s.b && pc.Idle?
    case _ => s'.b == s.b && pc.Idle?
  }

  lemma CallsStartWell(s: State, t: nat, ch: Choice)
    requires Inv(s) && t < |s.pcs| && s.pcs[t].Idle?
    ensures StartsWell(s, t, ch, Step(s, t, ch))
  {
  }

  // ----- over whole runs

  ghost predicate In(s: State, t: nat, call: Call) {
    t < |s.pcs| && !s.pcs[t].Idle? && CallOf(s.pcs[t]) == call
  }

  /** This turn ends the operation that thread t is in. */
  ghost predicate Ends(s: State, turn: Turn, t: nat, call: Call) {
    && In(s, t, call) && turn.t == t && Step(s, t, turn.ch).pcs[t].Idle?
    && EndsWell(call, s.b, Step(s, t, turn.ch).b)
  }

  lemma OthersLeaveAlone(s: State, turn: Turn, t: nat)
    requires turn.t < |s.pcs| && t < |s.pcs| && turn.t != t
    ensures Step(s, turn.t, turn.ch).pcs[t] == s.pcs[t]
  {
  }

  /** Over any run and any interleaving, a thread in an operation is still in it, or some turn of the run was its
      last one, and ended it as it should: a `lock` that is over has either found no strong count left or
      produced a strong handle. */
  lemma {:induction false} RunsEndCallsWell(s: State, turns: seq<Turn>, t: nat, call: Call)
    requires Inv(s) && Scheduled(turns, |s.pcs|) && In(s, t, call)
    ensures In(Run(s, turns), t, call)
            || exists k :: 0 <= k < |turns| && Scheduled(turns[..k], |s.pcs|)
                           && Ends(Run(s, turns[..k]), turns[k], t, call)
    decreases turns
  {
    if turns != [] {
      var turn, rest := turns[0], turns[1..];
      var s' := Step(s, turn.t, turn.ch);
      StepKeepsInv(s, turn.t, turn.ch);
      if turn.t == t {
        CallsEndWell(s, t, turn.ch);
      } else {
        OthersLeaveAlone(s, turn, t);
      }
      if In(s', t, call) {
        RunsEndCallsWell(s', rest, t, call);
        if !In(Run(s', rest), t, call) {
          var k :| 0 <= k < |rest| && Scheduled(rest[..k], |s.pcs|) && Ends(Run(s', rest[..k]), rest[k], t, call);
          assert turns[..k + 1][1..] == rest[..k] && turns[k + 1] == rest[k];
          assert Scheduled(turns[..k + 1], |s.pcs|);
          assert Ends(Run(s, turns[..k + 1]), turns[k + 1], t, call);
        }
      } else {
        assert turns[..0] == [];
        assert Ends(Run(s, turns[..0]), turns[0], t, call);
      }
    }
  }

  // ----- a thread that is not disturbed

  function Alone(s: State, t: nat, chs: seq<Choice>): (r: State)
    requires t < |s.pcs|
    ensures |r.pcs| == |s.pcs|
    decreases chs
  {
    if chs == [] then s else Alone(Step(s, t, chs[0]), t, chs[1..])
  }

  lemma AloneStep(s: State, t: nat, ch: Choice, rest: seq<Choice>)
    requires t < |s.pcs|
    ensures Alone(s, t, [ch] + rest) == Alone(Step(s, t, ch), t, rest)
  {
    assert ([ch] + rest)[1..] == rest;
  }

  function LockCall(h: nat): seq<Choice> {
    [Lock(h)] + ([Proceed] + ([Proceed] + ([Proceed] + ([Proceed] + ([Proceed] + [])))))
  }

  /** Locking a weak handle of a live object, undisturbed, always succeeds. */
  lemma LockSucceeds(s: State, t: nat, h: nat)
    requires Inv(s) && t < |s.pcs| && s.pcs[t].Idle? && h in s.b.weaks && s.b.strong > 0
    ensures var r := Alone(s, t, LockCall(h));
            && r.pcs == s.pcs && GainsStrong(s.b, r.b) && r.b.deleted == s.b.deleted == 0
            && r.b.strong == s.b.strong + 1 && r.b.weak == s.b.weak + 1
  {
    var rest: seq<Choice> := [];
    var s1 := Step(s, t, Lock(h));
    var s2 := Step(s1, t, Proceed);
    var s3 := Step(s2, t, Proceed);
    var s4 := Step(s3, t, Proceed);
    var s5 := Step(s4, t, Proceed);
    AloneStep(s, t, Lock(h), [Proceed] + ([Proceed] + ([Proceed] + ([Proceed] + ([Proceed] + rest)))));
    AloneStep(s1, t, Proceed, [Proceed] + ([Proceed] + ([Proceed] + ([Proceed] + rest))));
    AloneStep(s2, t, Proceed, [Proceed] + ([Proceed] + ([Proceed] + rest)));
    AloneStep(s3, t, Proceed, [Proceed] + ([Proceed] + rest));
    AloneStep(s4, t, Proceed, [Proceed] + rest);
    AloneStep(s5, t, Proceed, rest);
    StrongImpliesWeak(s);
    NextIsNew(s);
    assert s.pcs[t := Idle] == s.pcs;
  }

  function CopyCall(h: nat): seq<Choice> {
    [Copy(h)] + ([Proceed] + ([Proceed] + ([Proceed] + ([Proceed] + []))))
  }

  /** Copying a strong handle, undisturbed, yields another and counts it twice: once strongly, once weakly. */
  lemma CopySucceeds(s: State, t: nat, h: nat)
    requires Inv(s) && t < |s.pcs| && s.pcs[t].Idle? && h in s.b.strongs
    ensures var r := Alone(s, t, CopyCall(h));
            && r.pcs == s.pcs && GainsStrong(s.b, r.b) && r.b.strong == s.b.strong + 1 && r.b.weak == s.b.weak + 1
  {
    var rest: seq<Choice> := [];
    var s1 := Step(s, t, Copy(h));
    var s2 := Step(s1, t, Proceed);
    var s3 := Step(s2, t, Proceed);
    var s4 := Step(s3, t, Proceed);
    AloneStep(s, t, Copy(h), [Proceed] + ([Proceed] + ([Proceed] + ([Proceed] + rest))));
    AloneStep(s1, t, Proceed, [Proceed] + ([Proceed] + ([Proceed] + rest)));
    AloneStep(s2, t, Proceed, [Proceed] + ([Proceed] + rest));
    AloneStep(s3, t, Proceed, [Proceed] + rest);
    AloneStep(s4, t, Proceed, rest);
    HandlesCount(s.b);
    NextIsNew(s);
    assert s.pcs[t := Idle] == s.pcs;
  }

  /** From giving up a strong count to the end of the drop. */
  function StrongDrop(): seq<Choice> {
    [Proceed] + ([Proceed] + ([Proceed] + ([Proceed] + WeakDrop())))
  }

  /** From giving up a weak count to the end of the drop. */
  function WeakDrop(): seq<Choice> {
    [Proceed] + ([Proceed] + ([Proceed] + []))
  }

  lemma IdleStays(s: State, t: nat, rest: seq<Choice>)
    requires t < |s.pcs| && s.pcs[t].Idle?
    ensures Alone(s, t, [Proceed] + rest) == Alone(s, t, rest)
  {
    AloneStep(s, t, Proceed, rest);
    assert s.pcs[t := Idle] == s.pcs;
  }

  /** The weak half of a drop lowers the weak count, and frees the block with the last one. */
  lemma WeakDropRuns(s: State, t: nat)
    requires t < |s.pcs| && s.pcs[t].WeakDerefLoad? && s.b.weak > 0
    ensures Alone(s, t, WeakDrop())
            == State(s.b.(weak := s.b.weak - 1, freed := s.b.freed + if s.b.weak == 1 then 1 else 0), s.pcs[t := Idle])
  {
    var rest: seq<Choice> := [];
    var s1 := Step(s, t, Proceed);
    var s2 := Step(s1, t, Proceed);
    AloneStep(s, t, Proceed, [Proceed] + ([Proceed] + rest));
    AloneStep(s1, t, Proceed, [Proceed] + rest);
    if s.b.weak == 1 {
      AloneStep(s2, t, Proceed, rest);
    } else {
      IdleStays(s2, t, rest);
    }
    assert s.pcs[t := WeakDerefDec][t := Idle] == s.pcs[t := Idle];
  }

  lemma {:induction false} AloneAppend(s: State, t: nat, xs: seq<Choice>, ys: seq<Choice>)
    requires t < |s.pcs|
    ensures Alone(s, t, xs + ys) == Alone(Alone(s, t, xs), t, ys)
    decreases xs
  {
    if xs == [] {
      assert xs + ys == ys;
    } else {
      assert (xs + ys)[1..] == xs[1..] + ys;
      AloneAppend(Step(s, t, xs[0]), t, xs[1..], ys);
    }
  }

  lemma WeakDropRunsLater(s: State, t: nat)
    requires t < |s.pcs| && s.pcs[t].WeakDerefLoad? && s.b.weak > 0
    ensures Alone(s, t, [Proceed] + WeakDrop()) == Alone(s, t, WeakDrop())
  {
    var one: seq<Choice> := [Proceed];
    assert one + WeakDrop() == WeakDrop() + one;
    AloneAppend(s, t, WeakDrop(), one);
    WeakDropRuns(s, t);
    assert one == [Proceed] + [];
    IdleStays(Alone(s, t, WeakDrop()), t, []);
  }

  /** The block after one strong count, and the weak count it came with, have been given up. */
  function Dropped(b: Block): Block {
    b.(strong := b.strong - 1, deleted := b.deleted + if b.strong == 1 then 1 else 0,
       weak := b.weak - 1, freed := b.freed + if b.weak == 1 then 1 else 0)
  }

  lemma StrongDropRuns(s: State, t: nat)
    requires t < |s.pcs| && s.pcs[t].StrongDerefTest? && s.b.strong > 0 && s.b.weak > 0
    ensures Alone(s, t, StrongDrop()) == State(Dropped(s.b), s.pcs[t := Idle])
  {
    var rest := WeakDrop();
    var s1 := Step(s, t, Proceed);
    var s2 := Step(s1, t, Proceed);
    var s3 := Step(s2, t, Proceed);
    AloneStep(s, t, Proceed, [Proceed] + ([Proceed] + ([Proceed] + rest)));
    AloneStep(s1, t, Proceed, [Proceed] + ([Proceed] + rest));
    AloneStep(s2, t, Proceed, [Proceed] + rest);
    if s.b.strong == 1 {
      AloneStep(s3, t, Proceed, rest);
      WeakDropRuns(Step(s3, t, Proceed), t);
    } else {
      WeakDropRunsLater(s3, t);
      WeakDropRuns(s3, t);
    }
    assert s3.pcs[t := Idle] == s.pcs[t := Idle];
    assert s3.pcs[t := WeakDerefLoad][t := Idle] == s.pcs[t := Idle];
  }

  /** Dropping a strong handle nobody is reading, undisturbed, deletes the object if it was the last strong count,
      and frees the block if it was the last count of all. */
  lemma DropSucceeds(s: State, t: nat, h: nat)
    requires Inv(s) && t < |s.pcs| && s.pcs[t].Idle? && h in s.b.strongs && !Pinned(s.pcs, h)
    ensures Alone(s, t, [Drop(h)] + StrongDrop())
            == State(Dropped(s.b).(strongs := s.b.strongs - {h}), s.pcs)
  {
    var s1 := Step(s, t, Drop(h));
    AloneStep(s, t, Drop(h), StrongDrop());
    HandlesCount(s.b);
    CountsCover(s);
    StrongDropRuns(s1, t);
    assert s1.pcs[t := Idle] == s.pcs;
  }

  lemma WeakDropSucceeds(s: State, t: nat, h: nat)
    requires Inv(s) && t < |s.pcs| && s.pcs[t].Idle? && h in s.b.weaks && !Pinned(s.pcs, h)
    ensures Alone(s, t, [Drop(h)] + WeakDrop())
            == State(s.b.(weaks := s.b.weaks - {h}, weak := s.b.weak - 1,
                          freed := s.b.freed + if s.b.weak == 1 then 1 else 0), s.pcs)
  {
    var s1 := Step(s, t, Drop(h));
    AloneStep(s, t, Drop(h), WeakDrop());
    HandlesCount(s.b);
    CountsCover(s);
    WeakDropRuns(s1, t);
    assert s1.pcs[t := Idle] == s.pcs;
  }

  lemma CountsCover(s: State)
    requires Inv(s)
    ensures s.b.strong >= |s.b.strongs| && s.b.weak >= |s.b.strongs| + |s.b.weaks|
  {
  }
}
