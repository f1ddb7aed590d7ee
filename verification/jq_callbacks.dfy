/** jQuery.Callbacks: one list with its closure variables, changed in place. The indexes are tied to the queue
    of JqFiring by ghost state that numbers the registrations. */
module JqCallbacks {
  import opened Common
  import opened JqFiring

  /** The fires among the passes, in the order in which they were begun. */
  function RequestsOf(log: seq<Event>): seq<Data> {
    if log == [] then []
    else
      var last := log[|log| - 1];
      RequestsOf(log[..|log| - 1]) + if last.Begun? && last.requested then [last.data] else []
  }

  /** The fires that were not ignored, in the order in which they were made. */
  function AcceptedIn(log: seq<Event>): seq<Data> {
    if log == [] then []
    else
      var last := log[|log| - 1];
      AcceptedIn(log[..|log| - 1]) + if last.Accepted? then [last.data] else []
  }

  lemma AcceptedOne(log: seq<Event>, e: Event)
    ensures AcceptedIn(log + [e]) == AcceptedIn(log) + if e.Accepted? then [e.data] else []
  {
    assert (log + [e])[..|log|] == log;
  }

  lemma RequestsOne(log: seq<Event>, e: Event)
    ensures RequestsOf(log + [e]) == RequestsOf(log) + if e.Begun? && e.requested then [e.data] else []
  {
    assert (log + [e])[..|log|] == log;
  }

  /** Position of fn in list, searching from a position. */
  function IndexFrom(fn: Fn, list: seq<Fn>, from: nat): (r: Option<nat>)
    ensures r.Some? ==> from <= r.value < |list| && list[r.value] == fn
    ensures r.Some? ==> forall i :: from <= i < r.value ==> list[i] != fn
    ensures r.None? ==> forall i :: from <= i < |list| ==> list[i] != fn
    decreases |list| - from
  {
    if from >= |list| then None
    else if list[from] == fn then Some(from)
    else IndexFrom(fn, list, from + 1)
  }

  /** The list without any occurrence of fn. */
  function Drop(list: seq<Fn>, fn: Fn): (r: seq<Fn>)
    ensures fn !in list ==> r == list
    ensures forall f :: f in r <==> f in list && f != fn
  {
    if |list| == 0 then []
    else if list[0] == fn then Drop(list[1..], fn)
    else [list[0]] + Drop(list[1..], fn)
  }

  function DropAll(list: seq<Fn>, fns: seq<Fn>): (r: seq<Fn>)
    ensures forall f :: f in r <==> f in list && f !in fns
  {
    if |fns| == 0 then list else Drop(DropAll(list, fns[..|fns| - 1]), fns[|fns| - 1])
  }

  lemma {:induction false} DropSpliced(list: seq<Fn>, k: nat)
    requires k < |list|
    ensures Drop(list[..k] + list[k + 1..], list[k]) == Drop(list, list[k])
  {
    var spliced := list[..k] + list[k + 1..];
    if k == 0 {
      assert spliced == list[1..];
    } else {
      assert spliced[1..] == list[1..][..k - 1] + list[1..][k..];
      DropSpliced(list[1..], k - 1);
    }
  }

  lemma AddedOne(log: seq<Event>, e: Event)
    ensures AddedIn(log + [e]) == if e.Added? then AddedIn(log) + [e.reg] else AddedIn(log)
  {
    AddedAppend(log, [e]);
    assert [e][1..] == [];
    assert AddedIn([e]) == if e.Added? then [e.reg] else [];
  }

  /** A registration joins the list and the queue of a running pass. */
  lemma AddedView(regs: seq<Registration>, reg: Registration, running: bool, at: int)
    requires running ==> 0 <= at <= |regs|
    ensures
      var more := regs + [reg];
      StepView(View(regs, if running then Some(regs[at..]) else None, true), Added(reg))
        == View(more, if running then Some(more[at..]) else None, true)
  {
    if running {
      assert (regs + [reg])[at..] == regs[at..] + [reg];
    }
  }

  /** Deleting a registration by its position deletes it by its number. */
  lemma {:induction false} WithoutAt(regs: seq<Registration>, i: nat)
    requires Increasing(regs) && i < |regs|
    ensures Without(regs, regs[i]) == regs[..i] + regs[i + 1..]
  {
    if i == 0 {
      forall k | 0 <= k < |regs[1..]| ensures regs[1..][k] != regs[0] {
        assert regs[1..][k] == regs[k + 1];
      }
      WithoutForeign(regs[1..], regs[0]);
    } else {
      WithoutAt(regs[1..], i - 1);
      assert regs[1..][..i - 1] == regs[1..i] && regs[1..][i..] == regs[i + 1..];
      assert regs[..i] == [regs[0]] + regs[1..i];
    }
  }

  /** What add does to a unique list: every argument is in it afterwards, and what is new is there once. */
  ghost predicate AddedOnce(before: seq<Fn>, fns: seq<Fn>, after: seq<Fn>) {
    && before <= after
    && (forall f :: f in after <==> f in before || f in fns)
    && forall i, j :: 0 <= j < i < |after| && |before| <= i ==> after[i] != after[j]
  }

  lemma OneMoreOnce(before: seq<Fn>, fns: seq<Fn>, n: nat, was: seq<Fn>, now: seq<Fn>)
    requires n < |fns| && AddedOnce(before, fns[..n], was)
    requires now == if fns[n] in was then was else was + [fns[n]]
    ensures AddedOnce(before, fns[..n + 1], now)
  {
    assert fns[..n + 1] == fns[..n] + [fns[n]];
    assert forall f :: f in fns[..n + 1] <==> f in fns[..n] || f == fns[n];
  }

  /** The registrations of the functions of a list, in order. */
  predicate Of(regs: seq<Registration>, fns: seq<Fn>) {
    |regs| == |fns| && forall i :: 0 <= i < |fns| ==> regs[i].fn == fns[i]
  }

  lemma OfMore(regs: seq<Registration>, fns: seq<Fn>, reg: Registration)
    requires Of(regs, fns)
    ensures Of(regs + [reg], fns + [reg.fn])
  {
  }

  lemma OfSpliced(regs: seq<Registration>, fns: seq<Fn>, index: nat)
    requires Of(regs, fns) && index < |fns|
    ensures |regs| == |fns| && regs[index].fn == fns[index]
    ensures Of(regs[..index] + regs[index + 1..], fns[..index] + fns[index + 1..])
  {
  }

  /** The events of registering. */
  function Additions(regs: seq<Registration>): (es: seq<Event>)
    ensures |es| == |regs| && forall i :: 0 <= i < |regs| ==> es[i] == Added(regs[i])
  {
    seq(|regs|, i requires 0 <= i < |regs| => Added(regs[i]))
  }

  lemma AdditionsAppend(a: seq<Registration>, b: seq<Registration>)
    ensures Additions(a + b) == Additions(a) + Additions(b)
  {
  }

  /** Registering runs nothing and fires nothing. */
  lemma {:induction false} AdditionsMean(log: seq<Event>, more: seq<Registration>)
    ensures
      var after := log + Additions(more);
      && RanIn(after) == RanIn(log) && RequestsOf(after) == RequestsOf(log) && AcceptedIn(after) == AcceptedIn(log)
      && AddedIn(after) == AddedIn(log) + more
    decreases |more|
  {
    hide RanIn, RequestsOf, AcceptedIn, AddedIn;
    if |more| == 0 {
      assert log + Additions(more) == log && AddedIn(log) + more == AddedIn(log);
    } else {
      var front, last := more[..|more| - 1], more[|more| - 1];
      AdditionsMean(log, front);
      var mid := log + Additions(front);
      assert log + Additions(more) == mid + [Added(last)];
      RanOne(mid, Added(last));
      RequestsOne(mid, Added(last));
      AcceptedOne(mid, Added(last));
      AddedOne(mid, Added(last));
      assert RequestsOf(mid) + [] == RequestsOf(mid) && AcceptedIn(mid) + [] == AcceptedIn(mid);
      assert AddedIn(log) + front + [last] == AddedIn(log) + more;
    }
  }

  class CallbackList {
    const once: bool
    const memorized: bool    // options.memory
    const unique: bool
    const stopOnFalse: bool

    var list: Option<seq<Fn>>
    var stack: Option<seq<Data>>
    var memory: Option<Data>
    var firing: bool
    var fired: bool
    var firingLength: int
    var firingIndex: int
    var firingStart: nat

    ghost var regs: seq<Registration>
    ghost var nextId: nat
    ghost var inCall: bool       // the callback at firingIndex is running
    ghost var log: seq<Event>

    /** Registrations whose turn in the current pass is still to come. */
    ghost function Queue(): Option<seq<Registration>>
      reads this
      requires 0 <= firingIndex + (if inCall then 1 else 0) <= |regs| || list.None? || !firing
    {
      if !firing then None
      else if list.None? then Some([])
      else Some(regs[firingIndex + (if inCall then 1 else 0)..])
    }

    ghost predicate Core()
      reads this
    {
      && Of(regs, if list.Some? then list.value else [])
      && (firing && list.Some? ==> 0 <= firingIndex + (if inCall then 1 else 0) <= |regs|)
      && Increasing(AddedIn(log)) && (forall x :: x in AddedIn(log) ==> x.id < nextId)
      && Replay(log) == View(regs, Queue(), true)
      && (memory.Some? ==> fired && memorized)
      && (firing ==> fired) && (inCall ==> firing)
      && (list.None? ==> stack.None? && memory.None?)
      && (once ==> stack.None?)
    }

    /** How every list looks while user code runs. */
    ghost predicate Valid()
      reads this
    {
      && Core()
      && (firing ==> inCall)
      && (firing && list.Some? ==> firingLength == |list.value| && firingIndex < |list.value|)
      && (!firing && stack.Some? ==> stack.value == [])
      && (stack.Some? ==> AcceptedIn(log) == RequestsOf(log) + stack.value)
      && firingStart == 0
    }

    /** Between two callbacks of a pass. */
    ghost predicate AtHead()
      reads this
    {
      && Core() && firing && !inCall && firingStart == 0
      && (list.Some? ==> firingLength == |list.value| && 0 <= firingIndex)
      && (stack.Some? ==> AcceptedIn(log) == RequestsOf(log) + stack.value)
    }

    constructor (once: bool, memorized: bool, unique: bool, stopOnFalse: bool)
      ensures Valid() && !firing && !fired && list == Some([]) && memory == None && log == []
      ensures stack == if once then None else Some([])
      ensures this.once == once && this.memorized == memorized
      ensures this.unique == unique && this.stopOnFalse == stopOnFalse
    {
      this.once, this.memorized, this.unique, this.stopOnFalse := once, memorized, unique, stopOnFalse;
      list, stack, memory := Some([]), if once then None else Some([]), None;
      firing, fired, firingLength, firingIndex, firingStart := false, false, 0, 0, 0;
      regs, nextId, inCall, log := [], 0, false, [];
    }

    /** Adds an event to the history. */
    ghost method Record(e: Event)
      modifies this`log
      ensures log == old(log) + [e] && Replay(log) == StepView(Replay(old(log)), e)
      ensures RequestsOf(log) ==
                if e.Begun? && e.requested then RequestsOf(old(log)) + [e.data] else RequestsOf(old(log))
      ensures AcceptedIn(log) == if e.Accepted? then AcceptedIn(old(log)) + [e.data] else AcceptedIn(old(log))
      ensures AddedIn(log) == if e.Added? then AddedIn(old(log)) + [e.reg] else AddedIn(old(log))
      ensures RanIn(log) == if e.Ran? then RanIn(old(log)) + [e.reg] else RanIn(old(log))
    {
      ReplayOne(log, e);
      RequestsOne(log, e);
      AcceptedOne(log, e);
      AddedOne(log, e);
      RanOne(log, e);
      log := log + [e];
    }

    /** Pushes one function unless the list is unique and has it. */
    method Push(fn: Fn) returns (ghost more: seq<Registration>)
      requires Core() && list.Some?
      modifies this`list, this`regs, this`nextId, this`log
      ensures Core() && list.Some? && regs == old(regs) + more && log == old(log) + Additions(more)
      ensures
        var known := unique && fn in old(list).value;
        && list.value == (if known then old(list).value else old(list).value + [fn])
        && (if known then more == [] else |more| == 1 && more[0].fn == fn)
    {
      hide Replay, AddedIn, RanIn, RequestsOf, AcceptedIn, Increasing, StepView, Of;
      if unique && fn in list.value {
        more := [];
        assert regs + more == regs && log + Additions(more) == log;
        return;
      }
      ghost var reg := Registration(nextId, fn);
      more := [reg];
      OfMore(regs, list.value, reg);
      IncreasingJoin(AddedIn(log), [reg]);
      AddedView(regs, reg, firing, firingIndex + if inCall then 1 else 0);
      Record(Added(reg));
      assert Additions(more) == [Added(reg)];
      list := Some(list.value + [fn]);
      regs := regs + more;
      nextId := nextId + 1;
    }

    /** The loop of add. */
    method PushEach(fns: seq<Fn>) returns (ghost more: seq<Registration>)
      requires Core() && list.Some?
      modifies this`list, this`regs, this`nextId, this`log
      ensures Core() && list.Some? && old(list).value <= list.value
      ensures unique ==> AddedOnce(old(list).value, fns, list.value)
      ensures regs == old(regs) + more && log == old(log) + Additions(more)
      ensures !unique ==> list.value == old(list).value + fns && Of(more, fns)
    {
      hide Core;
      more := [];
      assert regs + [] == regs && log + Additions([]) == log && list.value + [] == list.value && fns[..0] == [];
      for i := 0 to |fns|
        invariant Core() && list.Some? && old(list).value <= list.value
        invariant regs == old(regs) + more && log == old(log) + Additions(more)
        invariant !unique ==> list.value == old(list).value + fns[..i] && Of(more, fns[..i])
        invariant unique ==> AddedOnce(old(list).value, fns[..i], list.value)
      {
        ghost var before := more;
        ghost var was := list.value;
        ghost var one := Push(fns[i]);
        if unique {
          OneMoreOnce(old(list).value, fns, i, was, list.value);
        }
        more := before + one;
        AdditionsAppend(before, one);
        ConcatAssoc(old(log), Additions(before), Additions(one));
        ConcatAssoc(old(regs), before, one);
        assert fns[..i + 1] == fns[..i] + [fns[i]];
        ConcatAssoc(old(list).value, fns[..i], [fns[i]]);
      }
      assert fns[..|fns|] == fns;
    }

    /** The list side of self.add: pushes the arguments and extends a running pass. */
    method PushAll(fns: seq<Fn>) returns (start: nat, ghost more: seq<Registration>)
      requires Valid() && list.Some?
      modifies this`list, this`regs, this`nextId, this`log, this`firingLength
      ensures Valid() && list.Some? && start == |old(list).value| <= |list.value|
      ensures regs == old(regs) + more && log == old(log) + Additions(more)
      ensures old(list).value <= list.value
      ensures !unique ==> list.value == old(list).value + fns && Of(more, fns)
      ensures unique ==> AddedOnce(old(list).value, fns, list.value)
      ensures RanIn(log) == RanIn(old(log)) && AddedIn(log) == AddedIn(old(log)) + more
      ensures firing ==> firingLength == |list.value|
    {
      hide Replay, AddedIn, RanIn, RequestsOf, AcceptedIn, Increasing, Of, Additions;
      start := |list.value|;
      more := PushEach(fns);
      AdditionsMean(old(log), more);
      if firing {
        firingLength := |list.value|;
      }
    }

    /** list.splice( index, 1 ), with the adjustment of the firing indexes. */
    method Splice(index: nat)
      requires Valid() && list.Some? && index < |list.value|
      modifies this`list, this`regs, this`log, this`firingLength, this`firingIndex
      ensures Valid() && list.Some? && list.value == old(list).value[..index] + old(list).value[index + 1..]
      ensures old(log) <= log && RanIn(log) == RanIn(old(log))
      ensures RequestsOf(log) == RequestsOf(old(log)) && AcceptedIn(log) == AcceptedIn(old(log))
      ensures AddedIn(log) == AddedIn(old(log))
      ensures regs == old(regs)[..index] + old(regs)[index + 1..] && log == old(log) + [Removed(old(regs)[index])]
      ensures old(regs)[index].fn == old(list).value[index]
    {
      hide Replay, AddedIn, RanIn, RequestsOf, AcceptedIn, Increasing, Without, StepView, Of;
      OfSpliced(regs, list.value, index);
      LiveInOrder(log);
      RemovedView(regs, index, firing, firingIndex + 1);
      Record(Removed(regs[index]));
      list := Some(list.value[..index] + list.value[index + 1..]);
      regs := regs[..index] + regs[index + 1..];
      if firing {
        if index <= firingLength {
          firingLength := firingLength - 1;
        }
        if index <= firingIndex {
          firingIndex := firingIndex - 1;
        }
      }
    }

    /** self.remove: every occurrence of every argument. */
    method Remove(fns: seq<Fn>)
      requires Valid()
      modifies this`list, this`regs, this`log, this`firingLength, this`firingIndex
      ensures Valid() && list.Some? == old(list).Some? && old(log) <= log && RanIn(log) == RanIn(old(log))
      ensures AddedIn(log) == AddedIn(old(log))
      ensures list.Some? ==> list.value == DropAll(old(list).value, fns)
      ensures forall i :: |old(log)| <= i < |log| ==> log[i].Removed? && log[i].reg.fn in fns
    {
      if list.None? {
        return;
      }
      assert fns[..0] == [];
      for i := 0 to |fns|
        invariant Valid() && list.Some? && old(log) <= log && RanIn(log) == RanIn(old(log))
                  && AddedIn(log) == AddedIn(old(log))
        invariant list.value == DropAll(old(list).value, fns[..i])
        invariant forall j :: |old(log)| <= j < |log| ==> log[j].Removed? && log[j].reg.fn in fns
      {
        assert fns[..i + 1][..i] == fns[..i];
        RemoveOne(fns[i]);
      }
      assert fns[..|fns|] == fns;
    }

    /** The loop for one argument. */
    method RemoveOne(fn: Fn)
      requires Valid() && list.Some?
      modifies this`list, this`regs, this`log, this`firingLength, this`firingIndex
      ensures Valid() && list.Some? && old(log) <= log
      ensures RanIn(log) == RanIn(old(log)) && AddedIn(log) == AddedIn(old(log))
      ensures list.value == Drop(old(list).value, fn)
      ensures forall i :: |old(log)| <= i < |log| ==> log[i].Removed? && log[i].reg.fn == fn
    {
      hide Core, Valid;
      var index: nat := 0;
      while true
        invariant Valid() && list.Some? && old(log) <= log && RanIn(log) == RanIn(old(log))
                  && AddedIn(log) == AddedIn(old(log))
        invariant Drop(list.value, fn) == Drop(old(list).value, fn)
        invariant forall i :: |old(log)| <= i < |log| ==> log[i].Removed? && log[i].reg.fn == fn
        invariant index <= |list.value| && forall k :: 0 <= k < index ==> list.value[k] != fn
        decreases |list.value|
      {
        var found := IndexFrom(fn, list.value, index);
        if found.None? {
          return;
        }
        index := found.value;
        DropSpliced(list.value, index);
        Splice(index);
      }
    }

    /** self.disable. */
    method Disable()
      requires Valid()
      modifies this`list, this`stack, this`memory, this`regs, this`log
      ensures Valid() && list == None && stack == None && memory == None
      ensures old(log) <= log && RanIn(log) == RanIn(old(log)) && AddedIn(log) == AddedIn(old(log))
    {
      hide Replay, AddedIn, RanIn, RequestsOf, AcceptedIn, Increasing;
      Record(Dropped);
      list, stack, memory, regs := None, None, None, [];
    }

    /** self.lock. */
    method Lock()
      requires Valid()
      modifies this`list, this`stack, this`memory, this`regs, this`log
      ensures Valid() && stack == None && old(log) <= log
      ensures memory == old(memory) && RanIn(log) == RanIn(old(log)) && AddedIn(log) == AddedIn(old(log))
      ensures old(memory).Some? ==> list == old(list) && regs == old(regs) && log == old(log)
      ensures old(memory).None? ==> list == None
    {
      stack := None;
      if memory.None? {
        Disable();
      }
    }

    /** stack.push, for a fire while the list is firing. */
    method Enqueue(data: Data)
      requires Valid() && firing && stack.Some?
      modifies this`stack, this`log
      ensures Valid() && !once && stack == Some(old(stack).value + [data]) && log == old(log) + [Accepted(data)]
    {
      hide Replay, AddedIn, RanIn, RequestsOf, AcceptedIn, Increasing, Of;
      ConcatAssoc(RequestsOf(log), stack.value, [data]);
      Record(Accepted(data));
      stack := Some(stack.value + [data]);
    }

    /** The beginning of fire( data ). A requested fire is the oldest accepted one not yet begun. */
    method StartPass(data: Data, requested: bool)
      requires Core() && !firing && !inCall && list.Some? && firingStart <= |list.value|
      requires stack.Some? ==>
                 AcceptedIn(log) == RequestsOf(log) + (if requested then [data] + stack.value else stack.value)
      modifies this`memory, this`fired, this`firing, this`firingIndex, this`firingStart, this`firingLength, this`log
      ensures AtHead() && firing && !inCall && firingIndex == old(firingStart) && fired
      ensures memory == if memorized then Some(data) else None
      ensures log == old(log) + [Begun(data, old(firingStart), requested)]
      ensures RanIn(log) == RanIn(old(log)) && AddedIn(log) == AddedIn(old(log))
    {
      hide Replay, AddedIn, RanIn, RequestsOf, AcceptedIn, Increasing;
      memory := if memorized then Some(data) else None;
      fired := true;
      firingIndex := firingStart;
      firingStart := 0;
      firingLength := |list.value|;
      firing := true;
      Record(Begun(data, firingIndex, requested));
      if stack.Some? && requested {
        ConcatAssoc(RequestsOf(old(log)), [data], stack.value);
      }
    }

    /** Takes the callback at the firing index, which is about to be called. */
    method NextCallback() returns (fn: Fn)
      requires AtHead() && list.Some? && firingIndex < firingLength
      modifies this`inCall, this`log
      ensures Valid() && inCall && |regs| == |list.value| && 0 <= firingIndex < |regs| && fn == list.value[firingIndex]
      ensures regs[firingIndex].fn == fn
      ensures old(log) <= log
      ensures RanIn(log) == RanIn(old(log)) + [regs[firingIndex]] && AddedIn(log) == AddedIn(old(log))
      ensures log == old(log) + [Ran(regs[firingIndex])]
    {
      hide Replay, AddedIn, RanIn, RequestsOf, AcceptedIn, Increasing;
      fn := list.value[firingIndex];
      assert regs[firingIndex..][1..] == regs[firingIndex + 1..];
      Record(Ran(regs[firingIndex]));
      inCall := true;
    }

    /** firingIndex++ after the callback has returned. */
    method CallReturned()
      requires Valid() && firing
      modifies this`inCall, this`firingIndex
      ensures AtHead() && firingIndex == old(firingIndex) + 1 && Queue() == old(Queue())
    {
      firingIndex := firingIndex + 1;
      inCall := false;
    }

    /** The end of the loop: cut when a callback returned false and that stops the pass. */
    method EndPass(cut: bool)
      requires Core() && firing && firingStart == 0 && (cut == inCall)
      requires cut || Queue() == Some([])
      requires stack.Some? ==> AcceptedIn(log) == RequestsOf(log) + stack.value
      modifies this`firing, this`inCall, this`log
      ensures Core() && !firing && !inCall && log == old(log) + [Ended(cut)]
      ensures RanIn(log) == RanIn(old(log)) && AddedIn(log) == AddedIn(old(log))
      ensures stack.Some? ==> AcceptedIn(log) == RequestsOf(log) + stack.value
    {
      hide Replay, AddedIn, RanIn, RequestsOf, AcceptedIn, Increasing;
      firing := false;
      inCall := false;
      Record(Ended(cut));
    }

    /** list = []. */
    method Clear()
      requires Core() && !firing && !inCall && list.Some? && stack.None? && firingStart == 0
      modifies this`list, this`regs, this`log
      ensures Valid() && list == Some([]) && regs == [] && old(log) <= log
      ensures log == old(log) + [Dropped]
      ensures RanIn(log) == RanIn(old(log)) && AddedIn(log) == AddedIn(old(log))
    {
      hide Replay, AddedIn, RanIn, RequestsOf, AcceptedIn, Increasing;
      Record(Dropped);
      list, regs := Some([]), [];
    }
  }

  lemma {:induction false} RanAppend(a: seq<Event>, b: seq<Event>)
    ensures RanIn(a + b) == RanIn(a) + RanIn(b)
  {
    if a == [] {
      assert a + b == b;
    } else {
      RanAppend(a[1..], b);
      assert (a + b)[0] == a[0] && (a + b)[1..] == a[1..] + b;
      ConcatAssoc(if a[0].Ran? then [a[0].reg] else [], RanIn(a[1..]), RanIn(b));
    }
  }

  lemma RanOne(log: seq<Event>, e: Event)
    ensures RanIn(log + [e]) == if e.Ran? then RanIn(log) + [e.reg] else RanIn(log)
  {
    RanAppend(log, [e]);
    assert [e][1..] == [];
    assert RanIn([e]) == if e.Ran? then [e.reg] else [];
  }

  /** Deleting a registration deletes it from the queue, or does not concern the queue. */
  lemma QueueWithout(regs: seq<Registration>, index: nat, at: int)
    requires Increasing(regs) && index < |regs| && 0 <= at <= |regs|
    ensures
      var after := regs[..index] + regs[index + 1..];
      Without(regs[at..], regs[index]) == if index < at then after[at - 1..] else after[at..]
  {
    var after := regs[..index] + regs[index + 1..];
    if index < at {
      assert regs[index] !in regs[at..] by {
        forall k | 0 <= k < |regs[at..]| ensures regs[at..][k] != regs[index] {
          assert regs[at..][k] == regs[at + k];
        }
      }
      WithoutForeign(regs[at..], regs[index]);
      assert after[at - 1..] == regs[at..];
    } else {
      WithoutAt(regs[at..], index - at);
      assert regs[at..][..index - at] + regs[at..][index - at + 1..] == after[at..];
    }
  }

  /** The list, and the queue of a running pass, without one registration. */
  lemma RemovedView(regs: seq<Registration>, index: nat, running: bool, at: int)
    requires Increasing(regs) && index < |regs| && (running ==> 0 <= at <= |regs|)
    ensures
      var after := regs[..index] + regs[index + 1..];
      StepView(View(regs, if running then Some(regs[at..]) else None, true), Removed(regs[index]))
        == View(after, if running then Some(after[if index < at then at - 1 else at..]) else None, true)
  {
    WithoutAt(regs, index);
    if running {
      QueueWithout(regs, index, at);
    }
    hide Without;
  }
}
