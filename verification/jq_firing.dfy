/** What firing a callback list means, independently of indexes: a pass is a queue of registrations. Running takes
    the head, adding appends, removing deletes. */
module JqFiring {
  import opened Common

  /** Arguments of a fire, as an opaque token. */
  type Data = nat

  datatype State = Pending | Resolved | Rejected

  /** A callback: a user's function, or one of those jQuery.Deferred puts into its own lists. */
  datatype Fn = User(n: nat) | SetState(state: State) | DisableList(k: nat) | LockList(k: nat)

  /** A function in a list, with a number that is never used again: one function may be registered often. */
  datatype Registration = Registration(id: nat, fn: Fn)

  /** What can be observed of one list. */
  datatype Event =
    | Added(reg: Registration)
    | Removed(reg: Registration)
    | Accepted(data: Data)                            // a fire that was not ignored
    | Begun(data: Data, from: nat, requested: bool)   // a pass starts at position from; requested by a fire
    | Ran(reg: Registration)                          // its function was called
    | Ended(cut: bool)                                // cut: a callback stopped it by returning false
    | Dropped                                         // all registrations are gone

  /** The registrations in list order, and those still to run in the current pass, if there is one. ok is lost
      when an event does not fit. */
  datatype View = View(live: seq<Registration>, pending: Option<seq<Registration>>, ok: bool)

  function Without(s: seq<Registration>, reg: Registration): (t: seq<Registration>)
    ensures forall x :: x in t <==> x in s && x != reg
  {
    if s == [] then []
    else if s[0] == reg then Without(s[1..], reg)
    else [s[0]] + Without(s[1..], reg)
  }

  function StepView(v: View, e: Event): View {
    match e
    case Added(reg) =>
      View(v.live + [reg], if v.pending.Some? then Some(v.pending.value + [reg]) else None, v.ok)
    case Removed(reg) =>
      View(Without(v.live, reg), if v.pending.Some? then Some(Without(v.pending.value, reg)) else None, v.ok)
    case Accepted(_) => v
    case Begun(_, from, _) =>
      if v.pending.None? && from <= |v.live| then v.(pending := Some(v.live[from..])) else v.(ok := false)
    case Ran(reg) =>
      if v.pending.Some? && v.pending.value != [] && v.pending.value[0] == reg
      then v.(pending := Some(v.pending.value[1..]))
      else v.(ok := false)
    case Ended(cut) =>
      if v.pending.Some? && (cut || v.pending.value == []) then v.(pending := None) else v.(ok := false)
    case Dropped =>
      View([], if v.pending.Some? then Some([]) else None, v.ok)
  }

  /** The view after a history of events. */
  function Replay(log: seq<Event>): View
  {
    if log == [] then View([], None, true) else StepView(Replay(log[..|log| - 1]), log[|log| - 1])
  }

  lemma ReplayOne(log: seq<Event>, e: Event)
    ensures Replay(log + [e]) == StepView(Replay(log), e)
  {
    assert (log + [e])[..|log|] == log;
  }

  // ---------- what a history that fits implies ----------

  predicate Increasing(s: seq<Registration>) {
    forall i, j :: 0 <= i < j < |s| ==> s[i].id < s[j].id
  }

  /** Events of a stretch inside one pass. */
  predicate Inside(es: seq<Event>) {
    forall i :: 0 <= i < |es| ==> es[i].Added? || es[i].Removed? || es[i].Ran? || es[i].Accepted?
  }

  function StepAll(v: View, es: seq<Event>): View
    decreases |es|
  {
    if es == [] then v else StepAll(StepView(v, es[0]), es[1..])
  }

  function RanIn(es: seq<Event>): seq<Registration> {
    if es == [] then [] else (if es[0].Ran? then [es[0].reg] else []) + RanIn(es[1..])
  }

  function AddedIn(es: seq<Event>): seq<Registration> {
    if es == [] then [] else (if es[0].Added? then [es[0].reg] else []) + AddedIn(es[1..])
  }

  /** The functions of registrations. */
  function Functions(regs: seq<Registration>): (fns: seq<Fn>)
    ensures |fns| == |regs| && forall i :: 0 <= i < |regs| ==> fns[i] == regs[i].fn
  {
    seq(|regs|, i requires 0 <= i < |regs| => regs[i].fn)
  }

  /** The functions that were called, in order. */
  function CalledIn(es: seq<Event>): seq<Fn> {
    if es == [] then [] else (if es[0].Ran? then [es[0].reg.fn] else []) + CalledIn(es[1..])
  }

  lemma {:induction false} CalledAreRan(es: seq<Event>)
    ensures CalledIn(es) == Functions(RanIn(es))
  {
    if es != [] {
      CalledAreRan(es[1..]);
    }
  }

  /** Registrations removed before their turn, given those pending. */
  function LostIn(pending: seq<Registration>, es: seq<Event>): set<Registration>
    decreases |es|
  {
    if es == [] then {}
    else
      match es[0]
      case Added(reg) => LostIn(pending + [reg], es[1..])
      case Removed(reg) => (if reg in pending then {reg} else {}) + LostIn(Without(pending, reg), es[1..])
      case Ran(_) => LostIn(if pending == [] then [] else pending[1..], es[1..])
      case _ => LostIn(pending, es[1..])
  }

  function Except(s: seq<Registration>, gone: set<Registration>): seq<Registration> {
    if s == [] then [] else (if s[0] in gone then [] else [s[0]]) + Except(s[1..], gone)
  }

  lemma {:induction false} ExceptAppend(a: seq<Registration>, b: seq<Registration>, gone: set<Registration>)
    ensures Except(a + b, gone) == Except(a, gone) + Except(b, gone)
  {
    if a == [] {
      assert a + b == b;
    } else {
      ExceptAppend(a[1..], b, gone);
      assert (a + b)[0] == a[0] && (a + b)[1..] == a[1..] + b;
      ConcatAssoc(if a[0] in gone then [] else [a[0]], Except(a[1..], gone), Except(b, gone));
    }
  }

  lemma {:induction false} ExceptMore(s: seq<Registration>, reg: Registration, gone: set<Registration>)
    ensures Except(s, {reg} + gone) == Except(Without(s, reg), gone)
  {
    if s != [] {
      ExceptMore(s[1..], reg, gone);
    }
  }

  lemma {:induction false} WithoutForeign(s: seq<Registration>, reg: Registration)
    requires reg !in s
    ensures Without(s, reg) == s
  {
    if s != [] {
      WithoutForeign(s[1..], reg);
    }
  }

  lemma {:induction false} LostKnown(pending: seq<Registration>, es: seq<Event>, x: Registration)
    requires x in LostIn(pending, es)
    ensures x in pending || x in AddedIn(es)
    decreases |es|
  {
    match es[0] {
      case Added(reg) => LostKnown(pending + [reg], es[1..], x);
      case Removed(reg) =>
        if !(reg in pending && x == reg) { LostKnown(Without(pending, reg), es[1..], x); }
      case Ran(_) => LostKnown(if pending == [] then [] else pending[1..], es[1..], x);
      case _ => LostKnown(pending, es[1..], x);
    }
  }

  /** No registration is used twice: pending ones and those added later all differ. */
  predicate FreshAdds(pending: seq<Registration>, es: seq<Event>) {
    Increasing(pending + AddedIn(es))
  }

  lemma IncreasingJoin(s: seq<Registration>, t: seq<Registration>)
    requires Increasing(s) && Increasing(t) && forall x, y :: x in s && y in t ==> x.id < y.id
    ensures Increasing(s + t)
  {
    forall i, j | 0 <= i < j < |s + t| ensures (s + t)[i].id < (s + t)[j].id {
      if i < |s| <= j {
        assert s[i] in s && t[j - |s|] in t;
      }
    }
  }

  lemma IncreasingSplit(s: seq<Registration>, t: seq<Registration>)
    requires Increasing(s + t)
    ensures Increasing(s) && Increasing(t) && forall x, y :: x in s && y in t ==> x.id < y.id
  {
    var all := s + t;
    assert forall i :: 0 <= i < |s| ==> all[i] == s[i];
    assert forall i :: 0 <= i < |t| ==> all[|s| + i] == t[i];
  }

  lemma {:induction false} WithoutKeepsOrder(s: seq<Registration>, reg: Registration)
    requires Increasing(s)
    ensures Increasing(Without(s, reg))
  {
    if s != [] {
      WithoutKeepsOrder(s[1..], reg);
      if s[0] != reg {
        IncreasingJoin([s[0]], Without(s[1..], reg));
      }
    }
  }

  lemma WithoutIncreasing(s: seq<Registration>, t: seq<Registration>, reg: Registration)
    requires Increasing(s + t)
    ensures Increasing(Without(s, reg) + t)
  {
    IncreasingSplit(s, t);
    WithoutKeepsOrder(s, reg);
    IncreasingJoin(Without(s, reg), t);
  }

  lemma FreshAdded(p: seq<Registration>, es: seq<Event>)
    requires FreshAdds(p, es) && es != [] && es[0].Added?
    ensures FreshAdds(p + [es[0].reg], es[1..])
  {
    ConcatAssoc(p, [es[0].reg], AddedIn(es[1..]));
  }

  lemma FreshRan(p: seq<Registration>, es: seq<Event>)
    requires p != [] && FreshAdds(p, es) && es != [] && es[0].Ran?
    ensures FreshAdds(p, es[1..]) && FreshAdds(p[1..], es[1..])
  {
    assert AddedIn(es) == AddedIn(es[1..]);
    assert p[1..] + AddedIn(es) == (p + AddedIn(es))[1..];
  }

  lemma FreshWithout(p: seq<Registration>, es: seq<Event>, reg: Registration)
    requires FreshAdds(p, es) && es != [] && es[0].Removed?
    ensures FreshAdds(Without(p, reg), es[1..]) && FreshAdds(p, es[1..])
  {
    assert AddedIn(es) == AddedIn(es[1..]);
    WithoutIncreasing(p, AddedIn(es[1..]), reg);
  }

  lemma FreshAccepted(p: seq<Registration>, es: seq<Event>)
    requires FreshAdds(p, es) && es != [] && es[0].Accepted?
    ensures FreshAdds(p, es[1..])
  {
    assert AddedIn(es) == AddedIn(es[1..]);
  }

  /** The head of the queue is not lost later: it is no other registration. */
  lemma HeadIsNew(p: seq<Registration>, es: seq<Event>)
    requires p != [] && FreshAdds(p, es)
    ensures p[0] !in LostIn(p[1..], es)
  {
    var added := AddedIn(es);
    var all := p + added;
    forall k | 0 <= k < |p[1..]| ensures p[1..][k] != p[0] {
      assert all[k + 1] == p[1..][k] && all[0] == p[0];
    }
    forall k | 0 <= k < |added| ensures added[k] != p[0] {
      assert all[|p| + k] == added[k] && all[0] == p[0];
    }
    if p[0] in LostIn(p[1..], es) {
      LostKnown(p[1..], es, p[0]);
      assert false;
    }
  }

  lemma RanStep(p: seq<Registration>, es: seq<Event>)
    requires p != [] && FreshAdds(p, es)
    ensures
      var gone := LostIn(p[1..], es);
      Except(p + AddedIn(es), gone) == [p[0]] + Except(p[1..] + AddedIn(es), gone)
  {
    HeadIsNew(p, es);
    hide LostIn, AddedIn, FreshAdds;
    var all := p + AddedIn(es);
    assert all[0] == p[0] && all[1..] == p[1..] + AddedIn(es);
  }

  /** What has run, followed by what is still pending, is what was pending at the start and was added since, in
      that order, less what was removed before its turn. */
  predicate Ordered(v: View, es: seq<Event>) {
    && v.pending.Some? && StepAll(v, es).pending.Some?
    && RanIn(es) + StepAll(v, es).pending.value
         == Except(v.pending.value + AddedIn(es), LostIn(v.pending.value, es))
  }

  lemma OrderedAdded(v: View, es: seq<Event>)
    requires es != [] && es[0].Added? && v.pending.Some? && Ordered(StepView(v, es[0]), es[1..])
    ensures Ordered(v, es)
  {
    hide Except;
    var p, reg := v.pending.value, es[0].reg;
    assert AddedIn(es) == [reg] + AddedIn(es[1..]);
    assert RanIn(es) == [] + RanIn(es[1..]) == RanIn(es[1..]);
    assert LostIn(p, es) == LostIn(p + [reg], es[1..]);
    assert StepAll(v, es) == StepAll(StepView(v, es[0]), es[1..]);
    ConcatAssoc(p, [reg], AddedIn(es[1..]));
    hide StepAll, AddedIn, RanIn, LostIn;
  }

  lemma RemovedFirst(v: View, es: seq<Event>)
    requires es != [] && es[0].Removed? && v.pending.Some?
    ensures
      var p, reg := v.pending.value, es[0].reg;
      && AddedIn(es) == AddedIn(es[1..]) && RanIn(es) == RanIn(es[1..])
      && LostIn(p, es) == (if reg in p then {reg} else {}) + LostIn(Without(p, reg), es[1..])
      && StepAll(v, es) == StepAll(StepView(v, es[0]), es[1..])
      && StepView(v, es[0]).pending == Some(Without(p, reg))
  {
    hide Without;
  }

  lemma OrderedRemoved(v: View, es: seq<Event>)
    requires es != [] && es[0].Removed? && v.pending.Some? && Ordered(StepView(v, es[0]), es[1..])
    requires FreshAdds(v.pending.value, es[1..])
    ensures Ordered(v, es)
  {
    hide Except, FreshAdds, Without, StepAll, StepView, AddedIn, RanIn, LostIn;
    RemovedFirst(v, es);
    RemovedStep(v.pending.value, es[0].reg, es[1..]);
  }

  lemma OrderedRan(v: View, es: seq<Event>)
    requires es != [] && es[0].Ran? && v.pending.Some? && Ordered(StepView(v, es[0]), es[1..])
    requires StepView(v, es[0]).ok && FreshAdds(v.pending.value, es[1..])
    ensures Ordered(v, es)
  {
    hide Except, FreshAdds, Without;
    assert AddedIn(es) == AddedIn(es[1..]);
    RanStep(v.pending.value, es[1..]);
    ConcatAssoc([es[0].reg], RanIn(es[1..]), StepAll(v, es).pending.value);
  }

  lemma OrderedAccepted(v: View, es: seq<Event>)
    requires es != [] && es[0].Accepted? && v.pending.Some? && Ordered(v, es[1..])
    ensures Ordered(v, es)
  {
    hide Except;
    assert AddedIn(es) == AddedIn(es[1..]) && RanIn(es) == RanIn(es[1..]);
  }

  /** The pass, end to end. */
  lemma {:induction false} PassOrder(v: View, es: seq<Event>)
    requires Inside(es) && v.pending.Some? && FreshAdds(v.pending.value, es) && StepAll(v, es).ok
    ensures Ordered(v, es)
    decreases |es|
  {
    var p := v.pending.value;
    if es == [] {
      ExceptNothing(p);
      assert p + [] == p && [] + p == p;
    } else {
      hide FreshAdds, Ordered, Without;
      var next := StepView(v, es[0]);
      OkBackwards(next, es[1..]);
      match es[0] {
        case Added(reg) =>
          FreshAdded(p, es);
          PassOrder(next, es[1..]);
          OrderedAdded(v, es);
        case Removed(reg) =>
          FreshWithout(p, es, reg);
          PassOrder(next, es[1..]);
          OrderedRemoved(v, es);
        case Ran(reg) =>
          FreshRan(p, es);
          PassOrder(next, es[1..]);
          OrderedRan(v, es);
        case Accepted(_) =>
          FreshAccepted(p, es);
          PassOrder(next, es[1..]);
          OrderedAccepted(v, es);
      }
    }
  }

  lemma RemovedStep(p: seq<Registration>, reg: Registration, es: seq<Event>)
    requires FreshAdds(p, es)
    ensures
      var gone := LostIn(Without(p, reg), es);
      Except(p + AddedIn(es), (if reg in p then {reg} else {}) + gone) == Except(Without(p, reg) + AddedIn(es), gone)
  {
    var gone := LostIn(Without(p, reg), es);
    var added := AddedIn(es);
    ExceptAppend(Without(p, reg), added, gone);
    if reg in p {
      ExceptAppend(p, added, {reg} + gone);
      ExceptMore(p, reg, gone);
      ExceptMore(added, reg, gone);
      var k :| 0 <= k < |p| && p[k] == reg;
      assert (p + added)[k] == reg;
      forall j | 0 <= j < |added| ensures added[j] != reg {
        assert (p + added)[|p| + j] == added[j];
      }
      WithoutForeign(added, reg);
    } else {
      WithoutForeign(p, reg);
      assert {} + gone == gone;
    }
  }

  lemma {:induction false} ExceptNothing(s: seq<Registration>)
    ensures Except(s, {}) == s
  {
    if s != [] {
      ExceptNothing(s[1..]);
    }
  }

  lemma {:induction false} OkBackwards(v: View, es: seq<Event>)
    requires StepAll(v, es).ok
    ensures v.ok
    decreases |es|
  {
    if es != [] {
      OkBackwards(StepView(v, es[0]), es[1..]);
    }
  }

  lemma {:induction false} ExceptIncreasing(s: seq<Registration>, gone: set<Registration>)
    requires Increasing(s)
    ensures Increasing(Except(s, gone))
    ensures forall x :: x in Except(s, gone) <==> x in s && x !in gone
  {
    if s != [] {
      ExceptIncreasing(s[1..], gone);
      var rest := Except(s[1..], gone);
      forall j | 0 <= j < |rest| ensures s[0].id < rest[j].id {
        assert rest[j] in s[1..];
      }
    }
  }

  /** A pass that is not cut short runs every registration that was there or was added and is not removed
      before its turn exactly once, in list order, and nothing else. */
  lemma PassRunsEachOnce(v: View, es: seq<Event>)
    requires v.ok && v.pending.Some? && Inside(es) && FreshAdds(v.pending.value, es)
    requires StepView(StepAll(v, es), Ended(false)).ok
    ensures
      var members := v.pending.value + AddedIn(es);
      var lost := LostIn(v.pending.value, es);
      && RanIn(es) == Except(members, lost)
      && Increasing(RanIn(es))
      && (forall x :: x in RanIn(es) <==> x in members && x !in lost)
  {
    PassOrder(v, es);
    var members := v.pending.value + AddedIn(es);
    ExceptIncreasing(members, LostIn(v.pending.value, es));
    assert RanIn(es) + [] == RanIn(es);
  }

  // ---------- whole histories ----------

  lemma {:induction false} ReplayAppend(a: seq<Event>, b: seq<Event>)
    ensures Replay(a + b) == StepAll(Replay(a), b)
    decreases |b|
  {
    if b == [] {
      assert a + b == a;
    } else {
      ReplayOne(a, b[0]);
      ReplayAppend(a + [b[0]], b[1..]);
      assert a + [b[0]] + b[1..] == a + b;
    }
  }

  lemma {:induction false} AddedAppend(a: seq<Event>, b: seq<Event>)
    ensures AddedIn(a + b) == AddedIn(a) + AddedIn(b)
  {
    if a == [] {
      assert a + b == b;
    } else {
      AddedAppend(a[1..], b);
      assert (a + b)[0] == a[0] && (a + b)[1..] == a[1..] + b;
      ConcatAssoc(if a[0].Added? then [a[0].reg] else [], AddedIn(a[1..]), AddedIn(b));
    }
  }

  /** Registrations stay in the order in which they were made. */
  lemma {:induction false} LiveInOrder(log: seq<Event>)
    requires Increasing(AddedIn(log))
    ensures Increasing(Replay(log).live)
    ensures forall x :: x in Replay(log).live ==> x in AddedIn(log)
    decreases |log|
  {
    if log != [] {
      var front, last := log[..|log| - 1], log[|log| - 1];
      assert log == front + [last];
      AddedAppend(front, [last]);
      assert [last][1..] == [] && AddedIn([last]) == if last.Added? then [last.reg] else [];
      assert forall i :: 0 <= i < |AddedIn(front)| ==> AddedIn(log)[i] == AddedIn(front)[i];
      LiveInOrder(front);
      var live := Replay(front).live;
      match last {
        case Added(reg) =>
          forall i | 0 <= i < |live| ensures live[i].id < reg.id {
            assert live[i] in AddedIn(front);
            var k :| 0 <= k < |AddedIn(front)| && AddedIn(front)[k] == live[i];
            assert AddedIn(log)[|AddedIn(front)|] == reg;
          }
        case Removed(reg) => WithoutKeepsOrder(live, reg);
        case _ =>
      }
    }
  }

  /** Registrations made later are behind those still there. */
  lemma FreshAfter(before: seq<Event>, from: nat, es: seq<Event>)
    requires Increasing(AddedIn(before) + AddedIn(es)) && from <= |Replay(before).live|
    ensures FreshAdds(Replay(before).live[from..], es)
  {
    IncreasingSplit(AddedIn(before), AddedIn(es));
    LiveInOrder(before);
    var live := Replay(before).live;
    forall x, y | x in live[from..] && y in AddedIn(es) ensures x.id < y.id {
      assert x in live;
      assert x in AddedIn(before);
    }
    IncreasingJoin(live[from..], AddedIn(es));
  }

  lemma IncreasingPrefix(a: seq<Registration>, b: seq<Registration>)
    requires Increasing(a + b)
    ensures Increasing(a)
  {
    IncreasingSplit(a, b);
  }

  /** The registrations made before and during a pass. */
  lemma AddedAround(before: seq<Event>, begun: Event, es: seq<Event>, end: Event, after: seq<Event>)
    requires begun.Begun? && end.Ended?
    ensures AddedIn(before + [begun] + es + [end] + after) == AddedIn(before) + AddedIn(es) + AddedIn(after)
  {
    AddedAppend(before + [begun] + es + [end], after);
    AddedAppend(before + [begun] + es, [end]);
    AddedAppend(before + [begun], es);
    AddedAppend(before, [begun]);
    assert [begun][1..] == [] && [end][1..] == [];
    assert AddedIn([begun]) == [] && AddedIn([end]) == [];
    assert AddedIn(before) + [] == AddedIn(before);
    assert AddedIn(before) + AddedIn(es) + [] == AddedIn(before) + AddedIn(es);
  }

  /** In any history that fits and never reuses a registration, every pass that is not cut short runs each
      registration of the pass that is not removed before its turn exactly once, in list order. */
  lemma HistoryRunsEachOnce(before: seq<Event>, data: Data, from: nat, requested: bool, es: seq<Event>,
                            after: seq<Event>)
    requires Inside(es)
    requires
      var log := before + [Begun(data, from, requested)] + es + [Ended(false)] + after;
      Replay(log).ok && Increasing(AddedIn(log))
    ensures from <= |Replay(before).live|
    ensures
      var start := Replay(before).live[from..];
      var members, lost := start + AddedIn(es), LostIn(start, es);
      && RanIn(es) == Except(members, lost)
      && Increasing(RanIn(es))
      && (forall x :: x in RanIn(es) <==> x in members && x !in lost)
  {
    hide Inside, Except, LostIn, FreshAdds, Increasing;
    var begun, end := Begun(data, from, requested), Ended(false);
    var v := Replay(before + [begun]);
    ReplayAppend(before + [begun] + es + [end], after);
    OkBackwards(Replay(before + [begun] + es + [end]), after);
    ReplayOne(before + [begun] + es, end);
    ReplayAppend(before + [begun], es);
    OkBackwards(v, es);
    ReplayOne(before, begun);
    AddedAround(before, begun, es, end, after);
    IncreasingPrefix(AddedIn(before) + AddedIn(es), AddedIn(after));
    FreshAfter(before, from, es);
    PassRunsEachOnce(v, es);
  }
}
