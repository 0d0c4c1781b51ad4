/** Strings that share a counted buffer. Buffers live in a pool and are named by their place in it; a handle
    is a view of a part of its buffer. */
module ShareString {
  import opened Common
  import opened MachineInts

  datatype Buffer = Buffer(data: string, count: int)

  datatype View = View(buffer: Option<nat>, start: uint64, length: uint64)

  /** The buffers of the pool and the handles that the program holds. */
  datatype Heap = Heap(buffers: seq<Buffer>, handles: seq<View>)

  const UNSET: View := View(None, 0, 0)

  function Refers(v: View, b: nat): nat {
    if v.buffer == Some(b) then 1 else 0
  }

  function Handles(vs: seq<View>, b: nat): nat {
    if vs == [] then 0 else Refers(vs[0], b) + Handles(vs[1..], b)
  }

  lemma {:induction false} HandlesUpdate(vs: seq<View>, h: nat, v: View, b: nat)
    requires h < |vs|
    ensures Handles(vs[h := v], b) == Handles(vs, b) - Refers(vs[h], b) + Refers(v, b)
  {
    if h == 0 {
      assert vs[h := v][1..] == vs[1..];
    } else {
      assert vs[h := v][1..] == vs[1..][h - 1 := v];
      HandlesUpdate(vs[1..], h - 1, v, b);
    }
  }

  lemma {:induction false} HandlesAtLeast(vs: seq<View>, h: nat, b: nat)
    requires h < |vs| && vs[h].buffer == Some(b)
    ensures Handles(vs, b) > 0
  {
    if h > 0 {
      HandlesAtLeast(vs[1..], h - 1, b);
    }
  }

  predicate Named(s: Heap) {
    forall h | 0 <= h < |s.handles| && s.handles[h].buffer.Some? :: s.handles[h].buffer.value < |s.buffers|
  }

  /** Each buffer counts the handles that refer to it. */
  ghost predicate Counted(s: Heap) {
    Named(s) && forall b: nat {:trigger s.buffers[b]} | b < |s.buffers| :: s.buffers[b].count == Handles(s.handles, b)
  }

  /** What a handle shows: the part of its buffer, as far as the buffer goes. A start beyond the end
      throws. */
  function Data(s: Heap, h: nat): Option<string>
    requires h < |s.handles| && Named(s)
  {
    var v := s.handles[h];
    if v.buffer.None? then Some("") else Slice(s.buffers[v.buffer.value].data, v.start, v.length)
  }

  function Slice(text: string, start: nat, length: nat): Option<string> {
    if start > |text| then None
    else if start + length <= |text| then Some(text[start..start + length])
    else Some(text[start..])
  }

  /** The handle lies within its buffer. */
  predicate Fits(s: Heap, h: nat)
    requires h < |s.handles| && Named(s)
  {
    var v := s.handles[h];
    v.buffer.Some? ==> v.start + v.length <= |s.buffers[v.buffer.value].data|
  }

  ghost predicate InBounds(s: Heap)
    requires Named(s)
  {
    forall h {:trigger Fits(s, h)} | 0 <= h < |s.handles| :: Fits(s, h)
  }

  /** A text is no longer than its length can say. */
  ghost predicate Short(s: Heap) {
    forall b | 0 <= b < |s.buffers| :: |s.buffers[b].data| < TWO_64
  }

  // ---------------------------------------------------------------- operations

  /** A buffer that nobody counts any more is back in the pool; its text stays there. */
  function Release(s: Heap, h: nat): Heap
    requires h < |s.handles| && Named(s)
  {
    var v := s.handles[h];
    if v.buffer.None? then s
    else
      var b := v.buffer.value;
      Heap(s.buffers[b := s.buffers[b].(count := s.buffers[b].count - 1)], s.handles[h := UNSET])
  }

  /** The view of another handle, counted. A moved-from handle is copied like any other. */
  function Share(s: Heap, h: nat, v: View): Heap
    requires h < |s.handles|
  {
    var handles := s.handles[h := v];
    if v.buffer.Some? && v.buffer.value < |s.buffers| then
      var b := v.buffer.value;
      Heap(s.buffers[b := s.buffers[b].(count := s.buffers[b].count + 1)], handles)
    else Heap(s.buffers, handles)
  }

  function New(s: Heap, h: nat, b: nat, text: string): Heap
    requires h < |s.handles| && b < |s.buffers| && |text| < TWO_64
  {
    Heap(s.buffers[b := Buffer(text, 1)], s.handles[h := View(Some(b), 0, |text|)])
  }

  /** Whether the view runs past the string; the sum is taken in 64 bits. */
  predicate Refused(v: View, start: uint64, length: uint64) {
    Add64(start, length) > v.length
  }

  function Part(v: View, start: uint64, length: uint64): View {
    View(v.buffer, Add64(v.start, start), length)
  }

  // ---------------------------------------------------------------- runs

  /** A string is constructed in a handle that is not set. Assignment first releases what the target had,
      and then takes the source; a string assigned to itself would take a null buffer. */
  datatype Op =
    | Make(h: nat, buffer: nat, text: string)
    | Copy(h: nat, source: nat)
    | Assign(h: nat, source: nat)
    | Substr(h: nat, source: nat, start: uint64, length: uint64)
    | Destroy(h: nat)

  predicate Possible(s: Heap, op: Op) {
    match op
    case Make(h, b, text) =>
      h < |s.handles| && s.handles[h] == UNSET && b < |s.buffers| && s.buffers[b].count == 0 && |text| < TWO_64
    case Copy(h, q) => h < |s.handles| && q < |s.handles| && s.handles[h] == UNSET && s.handles[q].buffer.Some?
    case Assign(h, q) => h < |s.handles| && q < |s.handles| && h != q && s.handles[q].buffer.Some?
    case Substr(h, q, i, n) =>
      && h < |s.handles| && q < |s.handles| && s.handles[h] == UNSET && s.handles[q].buffer.Some?
      && !Refused(s.handles[q], i, n)
    case Destroy(h) => h < |s.handles|
  }

  function Apply(s: Heap, op: Op): Heap
    requires Named(s) && Possible(s, op)
  {
    match op
    case Make(h, b, text) => New(s, h, b, text)
    case Copy(h, q) => Share(s, h, s.handles[q])
    case Assign(h, q) => Share(Release(s, h), h, s.handles[q])
    case Substr(h, q, i, n) => Share(s, h, Part(s.handles[q], i, n))
    case Destroy(h) => Release(s, h)
  }

  predicate Leads(s: Heap, ops: seq<Op>, s': Heap)
    decreases |ops|
  {
    if ops == [] then s == s' else Named(s) && Possible(s, ops[0]) && Leads(Apply(s, ops[0]), ops[1..], s')
  }

  lemma ReleaseCounts(s: Heap, h: nat)
    requires Counted(s) && h < |s.handles|
    ensures Counted(Release(s, h))
  {
    forall b: nat ensures Handles(s.handles[h := UNSET], b) == Handles(s.handles, b) - Refers(s.handles[h], b) {
      HandlesUpdate(s.handles, h, UNSET, b);
    }
  }

  lemma ShareCounts(s: Heap, h: nat, v: View)
    requires Counted(s) && h < |s.handles| && s.handles[h].buffer.None?
    requires v.buffer.Some? ==> v.buffer.value < |s.buffers|
    ensures Counted(Share(s, h, v))
  {
    forall b: nat ensures Handles(s.handles[h := v], b) == Handles(s.handles, b) + Refers(v, b) {
      HandlesUpdate(s.handles, h, v, b);
    }
  }

  lemma ApplyCounts(s: Heap, op: Op)
    requires Counted(s) && Possible(s, op)
    ensures Counted(Apply(s, op))
  {
    match op
    case Make(h, b, text) =>
      forall c: nat ensures Handles(Apply(s, op).handles, c) == Handles(s.handles, c) + if c == b then 1 else 0 {
        HandlesUpdate(s.handles, h, View(Some(b), 0, |text|), c);
      }
    case Copy(h, q) => ShareCounts(s, h, s.handles[q]);
    case Assign(h, q) =>
      ReleaseCounts(s, h);
      ShareCounts(Release(s, h), h, s.handles[q]);
    case Substr(h, q, i, n) => ShareCounts(s, h, Part(s.handles[q], i, n));
    case Destroy(h) => ReleaseCounts(s, h);
  }

  /** Over every run a buffer counts exactly the handles that show it, so it is back in the pool exactly
      when there are none. */
  lemma {:induction false} RunCounts(s: Heap, ops: seq<Op>, s': Heap)
    requires Counted(s) && Leads(s, ops, s')
    ensures Counted(s')
    ensures forall b: nat {:trigger s'.buffers[b]} | b < |s'.buffers| ::
              s'.buffers[b].count == 0 <==> forall h | 0 <= h < |s'.handles| :: s'.handles[h].buffer != Some(b)
    decreases |ops|
  {
    if ops != [] {
      ApplyCounts(s, ops[0]);
      RunCounts(Apply(s, ops[0]), ops[1..], s');
    } else {
      forall b: nat | b < |s'.buffers|
        ensures s'.buffers[b].count == 0 <==> forall h | 0 <= h < |s'.handles| :: s'.handles[h].buffer != Some(b)
      {
        ShownExactly(s'.handles, b);
      }
    }
  }

  lemma {:induction false} ShownExactly(vs: seq<View>, b: nat)
    ensures Handles(vs, b) == 0 <==> forall h | 0 <= h < |vs| :: vs[h].buffer != Some(b)
  {
    forall h | 0 <= h < |vs| && vs[h].buffer == Some(b) ensures Handles(vs, b) > 0 {
      HandlesAtLeast(vs, h, b);
    }
    if vs != [] && Handles(vs, b) > 0 && vs[0].buffer != Some(b) {
      ShownExactly(vs[1..], b);
    }
  }

  /** An operation on one string leaves what every other string shows, shared buffers included. */
  lemma OthersShowTheSame(s: Heap, op: Op, k: nat)
    requires Counted(s) && Possible(s, op) && k < |s.handles| && k != op.h
    ensures Counted(Apply(s, op)) && k < |Apply(s, op).handles| && Data(Apply(s, op), k) == Data(s, k)
  {
    ApplyCounts(s, op);
    TextsStay(s, op);
    assert Apply(s, op).handles[k] == s.handles[k];
    if s.handles[k].buffer.Some? {
      HandlesAtLeast(s.handles, k, s.handles[k].buffer.value);
    }
  }

  /** Only a new string writes into a buffer, and only into one that nobody shows. */
  lemma TextsStay(s: Heap, op: Op)
    requires Counted(s) && Possible(s, op)
    ensures var t := Apply(s, op);
            |t.buffers| == |s.buffers|
            && forall b: nat {:trigger t.buffers[b]} | b < |s.buffers| && s.buffers[b].count > 0 ::
                 t.buffers[b].data == s.buffers[b].data
  {
  }

  /** A copy and an assigned string show what their source shows. */
  lemma CopiesShowTheSource(s: Heap, op: Op)
    requires Counted(s) && Possible(s, op) && (op.Copy? || op.Assign?)
    ensures Counted(Apply(s, op)) && op.h < |Apply(s, op).handles| && Data(Apply(s, op), op.h) == Data(s, op.source)
  {
    ApplyCounts(s, op);
  }

  /** A part is the slice asked for, as long as the two numbers can be added. */
  lemma PartIsSlice(s: Heap, op: Op)
    requires Counted(s) && InBounds(s) && Possible(s, op) && op.Substr? && op.start + op.length < TWO_64
    requires Short(s)
    ensures Counted(Apply(s, op)) && op.h < |Apply(s, op).handles|
    ensures Data(s, op.source).Some? && op.start + op.length <= |Data(s, op.source).value|
    ensures Data(Apply(s, op), op.h) == Some(Data(s, op.source).value[op.start..op.start + op.length])
  {
    ApplyCounts(s, op);
    assert Fits(s, op.source);
    var v, i := s.handles[op.source], op.start;
    SliceOfSlice(s.buffers[v.buffer.value].data, v.start, v.start + v.length, i, i + op.length);
  }

  lemma ShownIsCounted(s: Heap, k: nat)
    requires Counted(s) && k < |s.handles| && s.handles[k].buffer.Some?
    ensures s.handles[k].buffer.value < |s.buffers| && s.buffers[s.handles[k].buffer.value].count > 0
  {
    HandlesAtLeast(s.handles, k, s.handles[k].buffer.value);
  }

  lemma OthersFit(s: Heap, op: Op, k: nat)
    requires Counted(s) && Possible(s, op) && k < |s.handles| && k != op.h && Fits(s, k)
    ensures Named(Apply(s, op)) && Fits(Apply(s, op), k)
  {
    ApplyCounts(s, op);
    TextsStay(s, op);
    assert Apply(s, op).handles[k] == s.handles[k];
    if s.handles[k].buffer.Some? {
      ShownIsCounted(s, k);
    }
  }

  /** A request for a part whose two numbers overflow, and whose start does not wrap around with them. */
  predicate Overruns(s: Heap, op: Op)
    requires Possible(s, op)
  {
    op.Substr? && op.start + op.length >= TWO_64 && s.handles[op.source].start + op.start < TWO_64
  }

  lemma TargetFits(s: Heap, op: Op)
    requires Counted(s) && InBounds(s) && Possible(s, op)
    requires Short(s)
    ensures Named(Apply(s, op)) && (Fits(Apply(s, op), op.h) <==> !Overruns(s, op))
  {
    ApplyCounts(s, op);
    TextsStay(s, op);
    if op.Copy? || op.Assign? || op.Substr? {
      ShownIsCounted(s, op.source);
      assert Fits(s, op.source);
    }
  }

  /** That is the only way for a handle to get outside its buffer. */
  lemma BoundsExactly(s: Heap, op: Op)
    requires Counted(s) && InBounds(s) && Possible(s, op)
    requires Short(s)
    ensures Counted(Apply(s, op)) && (InBounds(Apply(s, op)) <==> !Overruns(s, op))
  {
    ApplyCounts(s, op);
    TargetFits(s, op);
    forall k | 0 <= k < |s.handles| && k != op.h ensures Fits(Apply(s, op), k) {
      OthersFit(s, op, k);
    }
  }

  lemma StaysShort(s: Heap, op: Op)
    requires Counted(s) && Possible(s, op) && Short(s)
    ensures Short(Apply(s, op))
  {
  }

  /** A new string shows its text. */
  lemma NewShowsText(s: Heap, op: Op)
    requires Counted(s) && Possible(s, op) && op.Make?
    ensures Counted(Apply(s, op)) && op.h < |Apply(s, op).handles| && Data(Apply(s, op), op.h) == Some(op.text)
  {
    ApplyCounts(s, op);
    assert op.text[0..|op.text|] == op.text;
  }

  // ---------------------------------------------------------------- the shared buffers

  class StringHeap {
    var buffers: seq<Buffer>
    var handles: seq<View>

    function Value(): Heap
      reads this
    {
      Heap(buffers, handles)
    }

    ghost predicate Valid()
      reads this
    {
      Counted(Value()) && Short(Value())
    }

    constructor (n: nat, strings: nat)
      ensures Valid() && InBounds(Value())
      ensures Value() == Heap(seq(n, _ => Buffer("", 0)), seq(strings, _ => UNSET))
    {
      buffers := seq(n, _ => Buffer("", 0));
      handles := seq(strings, _ => UNSET);
      new;
      forall b: nat ensures Handles(handles, b) == 0 {
        ShownExactly(handles, b);
      }
    }

    /** Every string but one shows what it showed. */
    twostate predicate OnlyTouches(new h: nat)
      reads this
    {
      && Valid() && old(Valid()) && |handles| == |old(handles)|
      && forall k | 0 <= k < |handles| && k != h :: Data(Value(), k) == Data(old(Value()), k)
    }

    method ReleaseCurrent(h: nat)
      requires Named(Value()) && h < |handles|
      modifies this
      ensures Value() == Release(old(Value()), h)
    {
      if handles[h].buffer.Some? {
        var b := handles[h].buffer.value;
        buffers := buffers[b := buffers[b].(count := buffers[b].count - 1)];
        handles := handles[h := UNSET];
      }
    }

    method TakeView(h: nat, v: View)
      requires h < |handles| && v.buffer.Some? && v.buffer.value < |buffers|
      modifies this
      ensures Value() == Share(old(Value()), h, v)
    {
      var b := v.buffer.value;
      handles := handles[h := v];
      buffers := buffers[b := buffers[b].(count := buffers[b].count + 1)];
    }

    /** A buffer from the pool, which no string shows, now holds the text. */
    method MakeString(h: nat, b: nat, text: string)
      requires Valid() && Possible(Value(), Make(h, b, text))
      modifies this
      ensures Valid() && OnlyTouches(h) && Data(Value(), h) == Some(text)
      ensures b < |buffers| && buffers[b].count == 1
    {
      ghost var s, op := Value(), Make(h, b, text);
      Outcome(s, op);
      NewShowsText(s, op);
      buffers := buffers[b := Buffer(text, 1)];
      handles := handles[h := View(Some(b), 0, |text|)];
    }

    /** The destructor: nothing is shown, and the buffer is back in the pool exactly if no other string shows
        it. */
    method CheckReleaseCurrentData(h: nat)
      requires Valid() && h < |handles|
      modifies this
      ensures Valid() && OnlyTouches(h) && handles[h].buffer.None?
      ensures forall b | old(handles)[h].buffer == Some(b) && b < |buffers| ::
                buffers[b].count == 0 <==> forall k | 0 <= k < |handles| :: handles[k].buffer != Some(b)
    {
      Outcome(Value(), Destroy(h));
      ReleaseCurrent(h);
      forall b: nat | b < |buffers|
        ensures buffers[b].count == 0 <==> forall k | 0 <= k < |handles| :: handles[k].buffer != Some(b)
      {
        ShownExactly(handles, b);
      }
    }

    /** The same text twice, in one buffer. */
    method CopyString(h: nat, source: nat)
      requires Valid() && Possible(Value(), Copy(h, source))
      modifies this
      ensures Valid() && OnlyTouches(h) && Data(Value(), h) == Data(old(Value()), source)
      ensures handles[h].buffer == handles[source].buffer
    {
      ghost var s, op := Value(), Copy(h, source);
      Outcome(s, op);
      CopiesShowTheSource(s, op);
      TakeView(h, handles[source]);
    }

    /** The target shows what the source shows, whatever it showed before. */
    method AssignString(h: nat, source: nat)
      requires Valid() && Possible(Value(), Assign(h, source))
      modifies this
      ensures Valid() && OnlyTouches(h) && Data(Value(), h) == Data(old(Value()), source)
      ensures handles[h].buffer == handles[source].buffer
    {
      ghost var s, op := Value(), Assign(h, source);
      Outcome(s, op);
      CopiesShowTheSource(s, op);
      ReleaseCurrent(h);
      TakeView(h, handles[source]);
    }

    /** Not ok where the original throws, and then nothing changes. Else the part that was asked for is
        shown, and no handle leaves its buffer, unless the two numbers overflow together. */
    method FromSubstr(h: nat, source: nat, start: uint64, length: uint64) returns (ok: bool)
      requires Valid() && InBounds(Value()) && Possible(Value(), Copy(h, source))
      modifies this
      ensures Valid() && OnlyTouches(h) && (!ok ==> Value() == old(Value()))
      ensures Data(old(Value()), source).Some?
      ensures start + length < TWO_64 ==>
                var whole := Data(old(Value()), source).value;
                && (ok <==> start + length <= |whole|)
                && (ok ==> Data(Value(), h) == Some(whole[start..start + length]))
      ensures InBounds(Value()) <==>
                !ok || start + length < TWO_64 || old(handles)[source].start + start >= TWO_64
    {
      PartOutcome(Value(), h, source, start, length);
      var v := handles[source];
      ok := Add64(start, length) <= v.length;
      if ok {
        Outcome(Value(), Substr(h, source, start, length));
        TakeView(h, v);
        handles := handles[h := v.(start := Add64(v.start, start), length := length)];
        assert handles == old(handles)[h := Part(v, start, length)];
        assert Value() == Apply(old(Value()), Substr(h, source, start, length));
      }
    }
  }

  /** What asking for a part comes to. */
  lemma PartOutcome(s: Heap, h: nat, q: nat, i: uint64, n: uint64)
    requires Counted(s) && Short(s) && InBounds(s) && Possible(s, Copy(h, q))
    ensures Data(s, q).Some? && |Data(s, q).value| == s.handles[q].length
    ensures i + n < TWO_64 ==> (Refused(s.handles[q], i, n) <==> i + n > |Data(s, q).value|)
    ensures !Refused(s.handles[q], i, n) ==>
              var t := Apply(s, Substr(h, q, i, n));
              && Counted(t) && h < |t.handles|
              && (i + n < TWO_64 ==> i + n <= |Data(s, q).value| && Data(t, h) == Some(Data(s, q).value[i..i + n]))
              && (InBounds(t) <==> i + n < TWO_64 || s.handles[q].start + i >= TWO_64)
  {
    WholeIsShown(s, q);
    if !Refused(s.handles[q], i, n) {
      BoundsExactly(s, Substr(h, q, i, n));
      if i + n < TWO_64 {
        PartIsSlice(s, Substr(h, q, i, n));
      }
    }
  }

  lemma WholeIsShown(s: Heap, h: nat)
    requires Named(s) && InBounds(s) && h < |s.handles| && s.handles[h].buffer.Some?
    ensures Data(s, h).Some? && |Data(s, h).value| == s.handles[h].length
  {
    assert Fits(s, h);
  }

  /** What each operation keeps. */
  lemma Outcome(s: Heap, op: Op)
    requires Counted(s) && Short(s) && Possible(s, op)
    ensures Counted(Apply(s, op)) && Short(Apply(s, op)) && |Apply(s, op).handles| == |s.handles|
    ensures forall k | 0 <= k < |s.handles| && k != op.h :: Data(Apply(s, op), k) == Data(s, k)
  {
    ApplyCounts(s, op);
    StaysShort(s, op);
    forall k | 0 <= k < |s.handles| && k != op.h ensures Data(Apply(s, op), k) == Data(s, k) {
      OthersShowTheSame(s, op, k);
    }
  }
}
