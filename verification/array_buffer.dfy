/** The array buffer: elements kept in one block with free space on both sides, which an append or a prepend
    may rebalance instead of reallocating. */
module ArrayBuffer {

  datatype Side = GrowsForward | GrowsBackwards

  /** Where the elements sit in a block: the geometry that decides every move. */
  datatype Geometry = Geometry(capacity: nat, begin: nat, size: nat) {
    predicate Valid() {
      begin + size <= capacity
    }

    function FreeAtBegin(): nat {
      begin
    }

    function FreeAtEnd(): nat
      requires Valid()
    {
      capacity - begin - size
    }

    function FreeAt(pos: Side): nat
      requires Valid()
    {
      if pos.GrowsForward? then FreeAtEnd() else FreeAtBegin()
    }

    /** When `tryReadjustFreeSpace` moves the elements. */
    predicate Readjusts(pos: Side, n: nat)
      requires Valid()
    {
      if pos.GrowsForward? then FreeAtBegin() >= n && 3 * size < 2 * capacity
      else FreeAtEnd() >= n && 3 * size < capacity
    }

    /** The free space it then leaves at the beginning. */
    function NewBegin(pos: Side, n: nat): nat
      requires Valid()
    {
      if pos.GrowsForward? then 0
      else n + if capacity - size - n > 0 then (capacity - size - n) / 2 else 0
    }
  }

  /** A readjustment stays inside the block and leaves the room it was asked for. */
  lemma ReadjustMakesRoom(g: Geometry, pos: Side, n: nat)
    requires g.Valid() && g.Readjusts(pos, n)
    ensures var h := g.(begin := g.NewBegin(pos, n)); h.Valid() && h.FreeAt(pos) >= n
  {
  }

  /** How a readjustment shares the free space out: growing forward, all of it goes to the end; growing backwards,
      what is left beyond the room asked for is halved, and an odd slot goes to the end. */
  ghost predicate Balanced(g: Geometry, pos: Side, n: nat)
    requires g.Valid()
  {
    if pos.GrowsForward? then g.FreeAtBegin() == 0
    else g.FreeAtBegin() - n <= g.FreeAtEnd() <= g.FreeAtBegin() - n + 1
  }

  lemma ReadjustBalances(g: Geometry, pos: Side, n: nat)
    requires g.Valid() && g.Readjusts(pos, n)
    ensures var h := g.(begin := g.NewBegin(pos, n)); h.Valid() && Balanced(h, pos, n)
  {
  }

  function Slots<T>(s: seq<T>, start: nat, count: nat): seq<T>
    requires start + count <= |s|
  {
    s[start..start + count]
  }

  lemma SlotsOfSlots<T>(s: seq<T>, start: nat, size: nat, from: nat, n: nat)
    requires from + n <= size && start + size <= |s|
    ensures Slots(s, start + from, n) == Slots(s, start, size)[from..from + n]
  {
    var a, b := Slots(s, start + from, n), Slots(s, start, size)[from..from + n];
    assert |a| == |b| == n && forall i :: 0 <= i < n ==> a[i] == b[i];
  }

  /** Slot i of a block s after `count` slots have been moved from `source` to `target`. */
  function MovedSlot<T>(s: seq<T>, target: nat, source: nat, count: nat, i: nat): T
    requires source + count <= |s| && i < |s|
  {
    if target <= i < target + count then s[source + (i - target)] else s[i]
  }

  /** `memmove` within a block turns s into r. */
  ghost predicate Moved<T>(r: seq<T>, s: seq<T>, target: nat, source: nat, count: nat)
    requires source + count <= |s|
  {
    |r| == |s| && forall i :: 0 <= i < |r| ==> r[i] == MovedSlot(s, target, source, count, i)
  }

  /** `memcpy` into a block turns s into r. */
  ghost predicate Written<T>(r: seq<T>, s: seq<T>, target: nat, xs: seq<T>) {
    |r| == |s| && forall i :: 0 <= i < |r| ==> r[i] == if target <= i < target + |xs| then xs[i - target] else s[i]
  }

  lemma MovedElements<T>(r: seq<T>, s: seq<T>, target: nat, source: nat, count: nat)
    requires target + count <= |s| && source + count <= |s| && Moved(r, s, target, source, count)
    ensures Slots(r, target, count) == Slots(s, source, count)
  {
    var a, b := Slots(r, target, count), Slots(s, source, count);
    assert forall i :: 0 <= i < count ==> a[i] == r[target + i] == b[i];
  }

  lemma WrittenElements<T>(r: seq<T>, s: seq<T>, target: nat, xs: seq<T>)
    requires target + |xs| <= |s| && Written(r, s, target, xs)
    ensures Slots(r, target, |xs|) == xs
  {
    var a := Slots(r, target, |xs|);
    assert forall i :: 0 <= i < |xs| ==> a[i] == r[target + i] == xs[i];
  }

  lemma SlotsInFront<T>(s: seq<T>, r: seq<T>, start: nat, size: nat, x: T)
    requires 0 < size && start + size <= |s| && Written(r, s, start, [x])
    ensures Slots(r, start, size) == [x] + Slots(s, start + 1, size - 1)
  {
    var now := Slots(r, start, size);
    assert now[0] == x;
    assert now[1..] == Slots(s, start + 1, size - 1);
    assert now == [now[0]] + now[1..];
  }

  /** Moving a tail up and writing in front of it inserts. */
  lemma InsertedSlots<T>(s: seq<T>, gap: seq<T>, r: seq<T>, start: nat, size: nat, at: nat, xs: seq<T>)
    requires at <= size && start + size + |xs| <= |s|
    requires Moved(gap, s, start + at + |xs|, start + at, size - at) && Written(r, gap, start + at, xs)
    ensures var was := Slots(s, start, size);
            Slots(r, start, size + |xs|) == was[..at] + xs + was[at..]
  {
    var was, n := Slots(s, start, size), |xs|;
    var now := Slots(r, start, size + n);
    assert now[..at] == was[..at];
    WrittenElements(r, gap, start + at, xs);
    SlotsOfSlots(r, start, size + n, at, n);
    assert now[at + n..] == was[at..];
    assert now == now[..at] + now[at..at + n] + now[at + n..];
  }

  /** Moving a tail down erases. */
  lemma ErasedSlots<T>(s: seq<T>, r: seq<T>, start: nat, size: nat, b: nat, e: nat)
    requires b <= e <= size && start + size <= |s| && Moved(r, s, start + b, start + e, size - e)
    ensures var was := Slots(s, start, size);
            Slots(r, start, size - (e - b)) == was[..b] + was[e..]
  {
    var was, now := Slots(s, start, size), Slots(r, start, size - (e - b));
    assert now[..b] == was[..b];
    assert now[b..] == was[e..];
    assert now == now[..b] + now[b..];
  }

  /** An erased prefix or suffix needs no move. */
  lemma ErasedEnds<T>(s: seq<T>, start: nat, size: nat, b: nat, e: nat)
    requires b <= e <= size && start + size <= |s|
    ensures var was := Slots(s, start, size);
            && (b == 0 ==> Slots(s, start + e, size - e) == was[..b] + was[e..])
            && (e == size ==> Slots(s, start, b) == was[..b] + was[e..])
  {
  }

  class Buffer<T(0)> {
    const block: array<T>
    var ptr: nat
    var size: nat

    ghost predicate Valid()
      reads this
    {
      ptr + size <= block.Length
    }

    function Layout(): Geometry
      reads this
    {
      Geometry(block.Length, ptr, size)
    }

    ghost function Contents(): seq<T>
      requires Valid()
      reads this, block
    {
      Slots(block[..], ptr, size)
    }

    constructor (capacity: nat)
      ensures Valid() && fresh(block) && block.Length == capacity && Contents() == [] && ptr == 0
    {
      block := new T[capacity];
      ptr, size := 0, 0;
    }

    /** Copy `count` slots from `source` to `target`; the two may overlap. */
    method MoveSlots(target: nat, source: nat, count: nat)
      requires target + count <= block.Length && source + count <= block.Length
      modifies block
      ensures Moved(block[..], old(block[..]), target, source, count)
    {
      forall i | 0 <= i < count {
        block[target + i] := block[source + i];
      }
    }

    method WriteSlots(target: nat, xs: seq<T>)
      requires target + |xs| <= block.Length
      modifies block
      ensures Written(block[..], old(block[..]), target, xs)
    {
      forall i | 0 <= i < |xs| {
        block[target + i] := xs[i];
      }
    }

    /** `relocate`: move the elements by `offset`, taking along a pointer into them. */
    method Relocate(offset: int, data: int) returns (moved: int)
      requires Valid() && 0 <= ptr + offset && ptr + offset + size <= block.Length
      modifies `ptr, block
      ensures Valid() && Contents() == old(Contents()) && ptr == old(ptr) + offset
      ensures moved == if old(ptr) <= data < old(ptr) + size then data + offset else data
    {
      var res := ptr + offset;
      if res != ptr {
        ghost var was := block[..];
        MoveSlots(res, ptr, size);
        MovedElements(block[..], was, res, ptr, size);
      }
      moved := if ptr <= data < ptr + size then data + offset else data;
      ptr := res;
    }

    /** `tryReadjustFreeSpace`: the contents stay, a tracked pointer keeps pointing at its element, and a move
        leaves room for n more elements on the side asked for. */
    method TryReadjustFreeSpace(pos: Side, n: nat, data: int) returns (ok: bool, moved: int)
      requires Valid() && n > 0 && Layout().FreeAt(pos) < n
      modifies `ptr, block
      ensures Valid() && Contents() == old(Contents())
      ensures ok <==> old(Layout().Readjusts(pos, n))
      ensures Layout() == old(if ok then Layout().(begin := Layout().NewBegin(pos, n)) else Layout())
      ensures ok ==> Layout().FreeAt(pos) >= n && Balanced(Layout(), pos, n)
      ensures if old(ptr) <= data < old(ptr) + size then moved - ptr == data - old(ptr) else moved == data
    {
      var capacity := block.Length;
      var freeAtBegin := ptr;
      var freeAtEnd := capacity - ptr - size;
      var dataStartOffset := 0;
      if pos.GrowsForward? && freeAtBegin >= n && 3 * size < 2 * capacity {
      } else if pos.GrowsBackwards? && freeAtEnd >= n && 3 * size < capacity {
        dataStartOffset := n + if capacity - size - n > 0 then (capacity - size - n) / 2 else 0;
      } else {
        return false, data;
      }
      ReadjustMakesRoom(Layout(), pos, n);
      ReadjustBalances(Layout(), pos, n);
      moved := Relocate(dataStartOffset - freeAtBegin, data);
      return true, moved;
    }

    /** `insert`: open a gap at `at` by moving the tail right, then copy `xs` into it. */
    method Insert(at: nat, xs: seq<T>)
      requires Valid() && at <= size && |xs| <= Layout().FreeAtEnd()
      modifies `size, block
      ensures Valid() && Contents() == old(Contents())[..at] + xs + old(Contents())[at..]
    {
      var n, where := |xs|, ptr + at;
      ghost var was := block[..];
      MoveSlots(where + n, where, size - at);
      ghost var gap := block[..];
      WriteSlots(where, xs);
      InsertedSlots(was, gap, block[..], ptr, size, at, xs);
      size := size + n;
    }

    /** `erase`: an erased prefix only moves the start; anything else closes the gap from the right. */
    method Erase(b: nat, e: nat)
      requires Valid() && b < e <= size
      modifies `ptr, `size, block
      ensures Valid() && Contents() == old(Contents())[..b] + old(Contents())[e..]
      ensures ptr == old(ptr) + if b == 0 && e != old(size) then e else 0
      ensures b == 0 ==> Layout() == AfterEraseFront(old(Layout()), e)
    {
      ErasedEnds(block[..], ptr, size, b, e);
      if b == 0 && e != size {
        ptr := ptr + e;
      } else if e != size {
        CloseGap(b, e);
      }
      size := size - (e - b);
    }

    method CloseGap(b: nat, e: nat)
      requires Valid() && b < e <= size
      modifies block
      ensures Slots(block[..], ptr, size - (e - b)) == old(Contents())[..b] + old(Contents())[e..]
    {
      ghost var was := block[..];
      MoveSlots(ptr + b, ptr + e, size - e);
      ErasedSlots(was, block[..], ptr, size, b, e);
    }

    /** Slots inside the buffer, read as a part of its contents. */
    lemma InContents(data: int, n: nat)
      requires Valid() && ptr <= data && data + n <= ptr + size
      ensures Slots(block[..], data, n) == Contents()[data - ptr..data - ptr + n]
    {
      SlotsOfSlots(block[..], ptr, size, data - ptr, n);
    }

    /** `copyAppend` */
    method CopyAppend(xs: seq<T>)
      requires Valid() && |xs| <= Layout().FreeAtEnd()
      modifies `size, block
      ensures Valid() && Contents() == old(Contents()) + xs && size == old(size) + |xs|
    {
      Insert(size, xs);
    }

    /** `copyAppend` of n elements found in this buffer at `data`. */
    method CopyAppendOwn(data: int, n: nat)
      requires Valid() && ptr <= data && data + n <= ptr + size && n <= Layout().FreeAtEnd()
      modifies `size, block
      ensures Valid()
      ensures Contents() == old(Contents()) + old(Contents())[data - old(ptr)..data - old(ptr) + n]
    {
      InContents(data, n);
      CopyAppend(Slots(block[..], data, n));
    }

    /** `growAppend` of n of the buffer's own elements: the source is tracked through the move, so what is
        appended is what was asked for. */
    method GrowAppendOwn(from: nat, n: nat) returns (ok: bool)
      requires Valid() && n > 0 && from + n <= size
      modifies `ptr, `size, block
      ensures Valid()
      ensures ok <==> old(Layout().FreeAtEnd() >= n || Layout().Readjusts(GrowsForward, n))
      ensures Contents() == old(Contents()) + if ok then old(Contents())[from..from + n] else []
    {
      var data: int := ptr + from;
      ok := true;
      if block.Length - ptr - size < n {
        ok, data := TryReadjustFreeSpace(GrowsForward, n, data);
        if !ok {
          return;
        }
      }
      CopyAppendOwn(data, n);
    }

    /** Append one element without leaving the block, counting the elements that had to be moved. */
    method Append(x: T) returns (ok: bool, cost: nat)
      requires Valid()
      modifies `ptr, `size, block
      ensures Valid()
      ensures var g := old(Layout());
              && ok == CanAppend(g) && Layout() == AfterAppend(g) && cost == AppendCost(g)
      ensures cost == if ptr == old(ptr) then 0 else old(size)
      ensures Contents() == old(Contents()) + if ok then [x] else []
    {
      cost := 0;
      ok := true;
      if block.Length - ptr - size < 1 {
        ok, cost := RoomAtEnd();
        if !ok {
          return;
        }
      }
      CopyAppend([x]);
    }

    /** Make room for one element at the end of a block that has none there. */
    method RoomAtEnd() returns (ok: bool, cost: nat)
      requires Valid() && Layout().FreeAtEnd() < 1
      modifies `ptr, block
      ensures Valid() && Contents() == old(Contents())
      ensures ok <==> old(ptr) >= 1 && 3 * size < 2 * block.Length
      ensures if ok then ptr == 0 && cost == size else ptr == old(ptr) && cost == 0
    {
      var moved;
      ok, moved := TryReadjustFreeSpace(GrowsForward, 1, 0);
      cost := if ok then size else 0;
    }

    /** Put one element in front without leaving the block: make room at the beginning, then lower the start over
        it, counting the elements that had to be moved. */
    method Prepend(x: T) returns (ok: bool, cost: nat)
      requires Valid()
      modifies `ptr, `size, block
      ensures Valid()
      ensures var g := old(Layout());
              && ok == CanPrepend(g) && Layout() == AfterPrepend(g) && cost == PrependCost(g)
      ensures cost == if ok && ptr != old(ptr) - 1 then old(size) else 0
      ensures Contents() == (if ok then [x] else []) + old(Contents())
    {
      cost := 0;
      ok := true;
      if ptr < 1 {
        cost := size;
        var moved;
        ok, moved := TryReadjustFreeSpace(GrowsBackwards, 1, 0);
        if !ok {
          return false, 0;
        }
      }
      StepBack(x);
    }

    method StepBack(x: T)
      requires Valid() && ptr >= 1
      modifies `ptr, `size, block
      ensures Valid() && ptr == old(ptr) - 1 && size == old(size) + 1 && Contents() == [x] + old(Contents())
    {
      ghost var was := block[..];
      ptr := ptr - 1;
      size := size + 1;
      WriteSlots(ptr, [x]);
      SlotsInFront(was, block[..], ptr, size, x);
    }
  }

  // ----- a block used as a queue

  predicate CanAppend(g: Geometry)
    requires g.Valid()
  {
    g.FreeAtEnd() >= 1 || g.Readjusts(GrowsForward, 1)
  }

  function AfterAppend(g: Geometry): Geometry
    requires g.Valid()
  {
    if g.FreeAtEnd() >= 1 then g.(size := g.size + 1)
    else if g.Readjusts(GrowsForward, 1) then g.(begin := 0, size := g.size + 1)
    else g
  }

  /** How many elements an append moves. */
  function AppendCost(g: Geometry): nat
    requires g.Valid()
  {
    if g.FreeAtEnd() < 1 && g.Readjusts(GrowsForward, 1) then g.size else 0
  }

  function AfterEraseFront(g: Geometry, k: nat): Geometry
    requires 0 < k <= g.size
  {
    g.(begin := if k == g.size then g.begin else g.begin + k, size := g.size - k)
  }

  datatype QueueOp = AppendOne | EraseFront(k: nat)

  /** A block in use: its geometry, the additions done, the elements moved so far, and the additions since the
      last move, if there was one. */
  datatype Queue = Queue(g: Geometry, appends: nat, moved: nat, since: nat, relocated: bool)

  function QueueStep(q: Queue, op: QueueOp): (r: Queue)
    requires q.g.Valid()
    ensures r.g.Valid()
  {
    match op
    case AppendOne =>
      if !CanAppend(q.g) then q
      else if q.g.FreeAtEnd() >= 1 then
        q.(g := AfterAppend(q.g), appends := q.appends + 1, since := q.since + 1)
      else
        Queue(AfterAppend(q.g), q.appends + 1, q.moved + AppendCost(q.g), 1, true)
    case EraseFront(k) =>
      if 0 < k <= q.g.size then q.(g := AfterEraseFront(q.g, k)) else q
  }

  function QueueRun(q: Queue, ops: seq<QueueOp>): Queue
    requires q.g.Valid()
    decreases ops
  {
    if ops == [] then q else QueueRun(QueueStep(q, ops[0]), ops[1..])
  }

  ghost predicate QueueInv(q: Queue) {
    && q.g.Valid() && q.since <= q.appends
    && q.moved <= 2 * (q.appends - q.since) + q.g.capacity
    && (!q.relocated ==> q.moved == 0)
    && (q.relocated ==> 3 * (q.g.begin + q.g.size) < 2 * q.g.capacity + 3 * q.since)
  }

  lemma QueueStepKeeps(q: Queue, op: QueueOp)
    requires QueueInv(q)
    ensures QueueInv(QueueStep(q, op)) && QueueStep(q, op).g.capacity == q.g.capacity
  {
  }

  lemma {:induction false} QueueRunKeeps(q: Queue, ops: seq<QueueOp>)
    requires QueueInv(q)
    ensures QueueInv(QueueRun(q, ops)) && QueueRun(q, ops).g.capacity == q.g.capacity
    decreases ops
  {
    if ops != [] {
      QueueStepKeeps(q, ops[0]);
      QueueRunKeeps(QueueStep(q, ops[0]), ops[1..]);
    }
  }

  /** Over any such sequence, an append that moves the elements once more comes only after more than a third of
      the capacity has been appended since the last move, and moves less than twice as many. */
  lemma MovesAreFarApart(g: Geometry, ops: seq<QueueOp>)
    requires g.Valid()
    ensures var q := QueueRun(Queue(g, 0, 0, 0, false), ops);
            && q.g.Valid()
            && (q.relocated && AppendCost(q.g) > 0 ==> g.capacity < 3 * q.since && AppendCost(q.g) < 2 * q.since)
  {
    QueueRunKeeps(Queue(g, 0, 0, 0, false), ops);
  }

  /** From any layout, over any sequence of appends and erasures at the front, the elements moved number at
      most twice the appends plus the capacity. */
  lemma QueueIsAmortised(g: Geometry, ops: seq<QueueOp>)
    requires g.Valid()
    ensures var q := QueueRun(Queue(g, 0, 0, 0, false), ops);
            q.moved <= 2 * q.appends + g.capacity
  {
    QueueRunKeeps(Queue(g, 0, 0, 0, false), ops);
  }

  /** Elements at the end need no other block as long as this one is less than two thirds full, and elements in
      front as long as it is less than one third full, exactly when one of the two sides has room for them. */
  lemma RoomIsUsed(g: Geometry, pos: Side, n: nat)
    requires g.Valid() && 3 * g.size < (if pos.GrowsForward? then 2 else 1) * g.capacity
    ensures g.FreeAt(pos) >= n || g.Readjusts(pos, n) <==> g.FreeAtBegin() >= n || g.FreeAtEnd() >= n
  {
  }

  /** In a block that never gets two thirds full, every append of a run succeeds. */
  lemma {:induction false} QueueNeverRefuses(q: Queue, ops: seq<QueueOp>)
    requires q.g.Valid() && AlwaysBelow(q, ops)
    ensures QueueRun(q, ops).appends == q.appends + Appends(ops)
    decreases ops
  {
    if ops != [] {
      RoomIsUsed(q.g, GrowsForward, 1);
      QueueNeverRefuses(QueueStep(q, ops[0]), ops[1..]);
    }
  }

  /** Before every operation of the run, the block is less than two thirds full. */
  ghost predicate AlwaysBelow(q: Queue, ops: seq<QueueOp>)
    requires q.g.Valid()
    decreases ops
  {
    ops == [] || (3 * q.g.size < 2 * q.g.capacity && AlwaysBelow(QueueStep(q, ops[0]), ops[1..]))
  }

  function Appends(ops: seq<QueueOp>): nat {
    if ops == [] then 0 else (if ops[0].AppendOne? then 1 else 0) + Appends(ops[1..])
  }

  // ----- a block that grows backwards

  predicate CanPrepend(g: Geometry)
    requires g.Valid()
  {
    g.FreeAtBegin() >= 1 || g.Readjusts(GrowsBackwards, 1)
  }

  function AfterPrepend(g: Geometry): (h: Geometry)
    requires g.Valid()
    ensures h.Valid()
  {
    if g.FreeAtBegin() >= 1 then g.(begin := g.begin - 1, size := g.size + 1)
    else if g.Readjusts(GrowsBackwards, 1) then g.(begin := g.NewBegin(GrowsBackwards, 1) - 1, size := g.size + 1)
    else g
  }

  /** How many elements a prepend moves. */
  function PrependCost(g: Geometry): nat
    requires g.Valid()
  {
    if g.FreeAtBegin() < 1 && g.Readjusts(GrowsBackwards, 1) then g.size else 0
  }

  datatype StackOp = PrependOne | EraseBack(k: nat)

  function StackStep(q: Queue, op: StackOp): (r: Queue)
    requires q.g.Valid()
    ensures r.g.Valid()
  {
    match op
    case PrependOne =>
      if !CanPrepend(q.g) then q
      else if q.g.FreeAtBegin() >= 1 then
        q.(g := AfterPrepend(q.g), appends := q.appends + 1, since := q.since + 1)
      else
        Queue(AfterPrepend(q.g), q.appends + 1, q.moved + PrependCost(q.g), 1, true)
    case EraseBack(k) =>
      if 0 < k <= q.g.size then q.(g := q.g.(size := q.g.size - k)) else q
  }

  function StackRun(q: Queue, ops: seq<StackOp>): Queue
    requires q.g.Valid()
    decreases ops
  {
    if ops == [] then q else StackRun(StackStep(q, ops[0]), ops[1..])
  }

  ghost predicate StackInv(q: Queue) {
    && q.g.Valid() && q.since <= q.appends
    && q.moved <= q.appends - q.since + q.g.capacity
    && (!q.relocated ==> q.moved == 0)
    && (q.relocated ==> q.g.capacity < 3 * (q.g.begin + q.since))
  }

  lemma StackStepKeeps(q: Queue, op: StackOp)
    requires StackInv(q)
    ensures StackInv(StackStep(q, op)) && StackStep(q, op).g.capacity == q.g.capacity
  {
    if op.PrependOne? && CanPrepend(q.g) && q.g.FreeAtBegin() < 1 {
      ReadjustBalances(q.g, GrowsBackwards, 1);
    }
  }

  lemma {:induction false} StackRunKeeps(q: Queue, ops: seq<StackOp>)
    requires StackInv(q)
    ensures StackInv(StackRun(q, ops)) && StackRun(q, ops).g.capacity == q.g.capacity
    decreases ops
  {
    if ops != [] {
      StackStepKeeps(q, ops[0]);
      StackRunKeeps(StackStep(q, ops[0]), ops[1..]);
    }
  }

  /** From any layout, over any sequence of prepends and erasures at the back, the elements moved number at most
      the prepends plus the capacity: the balancing makes room for a third of the capacity at a time. */
  lemma StackIsAmortised(g: Geometry, ops: seq<StackOp>)
    requires g.Valid()
    ensures var q := StackRun(Queue(g, 0, 0, 0, false), ops);
            && q.g.Valid() && q.moved <= q.appends + g.capacity
            && (q.relocated && PrependCost(q.g) > 0 ==> g.capacity < 3 * q.since && PrependCost(q.g) < q.since)
  {
    StackRunKeeps(Queue(g, 0, 0, 0, false), ops);
  }

  /** In a block that never gets one third full, every prepend of a run succeeds. */
  lemma {:induction false} StackNeverRefuses(q: Queue, ops: seq<StackOp>)
    requires q.g.Valid() && StackAlwaysBelow(q, ops)
    ensures StackRun(q, ops).appends == q.appends + Prepends(ops)
    decreases ops
  {
    if ops != [] {
      RoomIsUsed(q.g, GrowsBackwards, 1);
      StackNeverRefuses(StackStep(q, ops[0]), ops[1..]);
    }
  }

  /** Before every operation of the run, the block is less than one third full. */
  ghost predicate StackAlwaysBelow(q: Queue, ops: seq<StackOp>)
    requires q.g.Valid()
    decreases ops
  {
    ops == [] || (3 * q.g.size < q.g.capacity && StackAlwaysBelow(StackStep(q, ops[0]), ops[1..]))
  }

  function Prepends(ops: seq<StackOp>): nat {
    if ops == [] then 0 else (if ops[0].PrependOne? then 1 else 0) + Prepends(ops[1..])
  }
}
