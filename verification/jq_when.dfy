/** jQuery.when with any number of arguments but one: a master deferred that waits for its subordinates. The master
    is a deferred of JqDeferred, with three lists and any callbacks that user code adds to its promise. */
module JqWhen {
  import opened Common
  import F = JqFiring
  import D = JqDeferred

  /** What a callback of a subordinate is called with: its context and its arguments. */
  type Value = nat

  datatype Settlement = Pending | Resolved(value: Value) | Rejected(reason: Value)

  /** An argument of jQuery.when; a promise may have settled, or have been notified, before. */
  datatype Argument = Plain(value: Value) | Promise(now: Settlement, progress: Option<Value>)

  /** An element of resolveValues: the argument itself until its promise is resolved. */
  datatype Cell = Holds(value: Value) | Subordinate

  /** What the master is called with. */
  datatype Arguments = Values(values: seq<Cell>) | Reason(reason: Value) | ProgressOf(progress: seq<Option<Value>>)

  /** What happens after jQuery.when has returned: to a subordinate, or callbacks are added to the master's promise. */
  datatype Happening =
    | Resolves(i: nat, value: Value)
    | Rejects(i: nat, reason: Value)
    | Progresses(i: nat, value: Value)
    | Attaches(k: nat, fns: seq<F.Fn>)
  {
    predicate Concerns(sub: nat) {
      !Attaches? && i == sub
    }

    predicate Settles() {
      Resolves? || Rejects?
    }
  }

  // ---------- the subordinates ----------

  function SubordinateNow(arg: Argument): Settlement {
    match arg
    case Plain(value) => Resolved(value)
    case Promise(now, _) => now
  }

  function SubordinatesNow(args: seq<Argument>): (subs: seq<Settlement>)
    ensures |subs| == |args| && forall i :: 0 <= i < |args| ==> subs[i] == SubordinateNow(args[i])
  {
    seq(|args|, i requires 0 <= i < |args| => SubordinateNow(args[i]))
  }

  /** A subordinate settles once, only one that has not settled makes progress, and a promise offers done, fail and
      progress. */
  predicate Possible(subs: seq<Settlement>, e: Happening) {
    if e.Attaches? then e.k <= D.PROGRESS && D.AllUser(e.fns) else e.i < |subs| && subs[e.i].Pending?
  }

  predicate Legal(subs: seq<Settlement>, es: seq<Happening>)
    decreases |es|
  {
    |es| == 0 || (Possible(subs, es[0]) && Legal(Apply(subs, es[0]), es[1..]))
  }

  function Apply(subs: seq<Settlement>, e: Happening): seq<Settlement>
    requires Possible(subs, e)
  {
    match e
    case Resolves(i, value) => subs[i := Resolved(value)]
    case Rejects(i, reason) => subs[i := Rejected(reason)]
    case Progresses(_, _) => subs
    case Attaches(_, _) => subs
  }

  /** The subordinates after everything in es has happened. */
  function After(subs: seq<Settlement>, es: seq<Happening>): (after: seq<Settlement>)
    requires Legal(subs, es)
    ensures |after| == |subs|
    decreases |es|
  {
    if |es| == 0 then subs else After(Apply(subs, es[0]), es[1..])
  }

  /** The first rejection: among the arguments, in their order, or else among the happenings. */
  function FirstArgument(args: seq<Argument>): Option<Value> {
    if |args| == 0 then None
    else
      var front := FirstArgument(args[..|args| - 1]);
      var last := SubordinateNow(args[|args| - 1]);
      if front.None? && last.Rejected? then Some(last.reason) else front
  }

  function FirstRejection(sofar: Option<Value>, es: seq<Happening>): Option<Value>
    decreases |es|
  {
    if |es| == 0 then sofar
    else FirstRejection(if sofar.None? && es[0].Rejects? then Some(es[0].reason) else sofar, es[1..])
  }

  function CountOpen(subs: seq<Settlement>): nat {
    if |subs| == 0 then 0
    else CountOpen(subs[..|subs| - 1]) + if subs[|subs| - 1].Resolved? then 0 else 1
  }

  lemma {:induction false} CountUpdate(subs: seq<Settlement>, i: nat, s: Settlement)
    requires i < |subs|
    ensures CountOpen(subs[i := s]) + (if subs[i].Resolved? then 0 else 1)
            == CountOpen(subs) + (if s.Resolved? then 0 else 1)
    decreases |subs|
  {
    var last := |subs| - 1;
    if i == last {
      assert subs[i := s][..last] == subs[..last];
    } else {
      assert subs[i := s][..last] == subs[..last][i := s];
      CountUpdate(subs[..last], i, s);
    }
  }

  lemma {:induction false} CountZero(subs: seq<Settlement>)
    ensures CountOpen(subs) == 0 <==> forall i :: 0 <= i < |subs| ==> subs[i].Resolved?
    decreases |subs|
  {
    if |subs| > 0 {
      var front := subs[..|subs| - 1];
      CountZero(front);
      assert forall i :: 0 <= i < |front| ==> front[i] == subs[i];
    }
  }

  lemma CountSnoc(subs: seq<Settlement>, n: nat)
    requires n < |subs|
    ensures CountOpen(subs[..n + 1]) == CountOpen(subs[..n]) + if subs[n].Resolved? then 0 else 1
  {
    assert subs[..n + 1][..n] == subs[..n];
  }

  lemma FirstArgumentSnoc(args: seq<Argument>, n: nat)
    requires n < |args|
    ensures
      var front, last := FirstArgument(args[..n]), SubordinateNow(args[n]);
      FirstArgument(args[..n + 1]) == if front.None? && last.Rejected? then Some(last.reason) else front
  {
    assert args[..n + 1][..n] == args[..n];
  }

  lemma NothingYet(args: seq<Argument>, subs: seq<Settlement>)
    ensures FirstArgument(args[..0]) == None && CountOpen(subs[..0]) == 0
  {
  }

  predicate AnyRejected(subs: seq<Settlement>) {
    exists i :: 0 <= i < |subs| && subs[i].Rejected?
  }

  lemma NoneRejectedYet(subs: seq<Settlement>)
    requires forall i :: 0 <= i < |subs| ==> !subs[i].Rejected?
    ensures !AnyRejected(subs)
  {
  }

  function CellOf(s: Settlement): Cell {
    if s.Resolved? then Holds(s.value) else Subordinate
  }

  lemma NoneRejectedBy(subs: seq<Settlement>, i: nat, value: Value)
    requires i < |subs| && subs[i].Pending?
    ensures AnyRejected(subs[i := Resolved(value)]) == AnyRejected(subs)
  {
    var more := subs[i := Resolved(value)];
    if j :| 0 <= j < |subs| && subs[j].Rejected? {
      assert more[j].Rejected?;
    }
  }

  // ---------- the closure, on values ----------

  /** The variables of one call of jQuery.when, and all calls of its master so far. What the master is called with is
      named by its place in passed. */
  datatype Closure = Closure(remaining: int, values: seq<Cell>, progressValues: seq<Option<Value>>,
                             passed: seq<Arguments>, calls: seq<D.Op>)
  {
    predicate Has(i: nat) {
      i < |values| == |progressValues|
    }

    function Call(k: nat, arguments: Arguments): Closure {
      this.(passed := passed + [arguments], calls := calls + [D.Fire(k, |passed|)])
    }

    /** The function updateFunc makes for resolution. */
    function Resolve(i: nat, value: Value): (c: Closure)
      requires Has(i)
      ensures |c.values| == |values| && |c.progressValues| == |progressValues|
    {
      var c := this.(values := values[i := Holds(value)], remaining := remaining - 1);
      if c.remaining == 0 then c.Call(D.DONE, Values(c.values)) else c
    }

    /** deferred.reject. */
    function Reject(reason: Value): Closure {
      Call(D.FAIL, Reason(reason))
    }

    /** The function updateFunc makes for progress. */
    function Notify(i: nat, value: Value): (c: Closure)
      requires Has(i)
      ensures |c.values| == |values| && |c.progressValues| == |progressValues|
    {
      var c := this.(progressValues := progressValues[i := Some(value)]);
      c.Call(D.PROGRESS, ProgressOf(c.progressValues))
    }

    function React(e: Happening): (c: Closure)
      requires e.Attaches? || Has(e.i)
      ensures |c.values| == |values| && |c.progressValues| == |progressValues|
    {
      match e
      case Resolves(i, value) => Resolve(i, value)
      case Rejects(_, reason) => Reject(reason)
      case Progresses(i, value) => Notify(i, value)
      case Attaches(_, _) => this
    }

    /** One round of the loop over the arguments: what has happened before happens when the callbacks are added. */
    function Round(i: nat, arg: Argument): (c: Closure)
      requires Has(i)
      ensures |c.values| == |values| && |c.progressValues| == |progressValues|
    {
      match arg
      case Plain(_) => this.(remaining := remaining - 1)
      case Promise(now, progress) =>
        var c := match now
                 case Resolved(value) => Resolve(i, value)
                 case Rejected(reason) => Reject(reason)
                 case Pending => this;
        if progress.Some? then c.Notify(i, progress.value) else c
    }
  }

  function Begun(args: seq<Argument>): Closure {
    Closure(|args|,
            seq(|args|, i requires 0 <= i < |args| => if args[i].Plain? then Holds(args[i].value) else Subordinate),
            seq(|args|, i => None), [], [])
  }

  function Rounds(args: seq<Argument>, n: nat): (c: Closure)
    requires n <= |args|
    ensures |c.values| == |c.progressValues| == |args|
  {
    if n == 0 then Begun(args) else Rounds(args, n - 1).Round(n - 1, args[n - 1])
  }

  /** Where jQuery.when returns. */
  function SetUp(args: seq<Argument>): (c: Closure)
    ensures |c.values| == |c.progressValues| == |args|
  {
    var c := Rounds(args, |args|);
    if c.remaining == 0 then c.Call(D.DONE, Values(c.values)) else c
  }

  predicate InRange(es: seq<Happening>, n: nat) {
    forall k :: 0 <= k < |es| ==> es[k].Attaches? || es[k].i < n
  }

  function ReactAll(c: Closure, es: seq<Happening>): (d: Closure)
    requires |c.values| == |c.progressValues| && InRange(es, |c.values|)
    ensures |d.values| == |c.values| && |d.progressValues| == |c.progressValues|
    decreases |es|
  {
    if |es| == 0 then c
    else
      assert forall k :: 0 <= k < |es[1..]| ==> es[1..][k] == es[k + 1];
      ReactAll(c.React(es[0]), es[1..])
  }

  /** A whole run, as far as the closure goes. */
  function Whole(args: seq<Argument>, es: seq<Happening>): Closure
    requires Legal(SubordinatesNow(args), es)
  {
    LegalInRange(SubordinatesNow(args), es);
    ReactAll(SetUp(args), es)
  }

  lemma {:induction false} LegalInRange(subs: seq<Settlement>, es: seq<Happening>)
    requires Legal(subs, es)
    ensures InRange(es, |subs|)
    decreases |es|
  {
    if |es| > 0 {
      LegalInRange(Apply(subs, es[0]), es[1..]);
      assert forall k :: 0 < k < |es| ==> es[k] == es[1..][k - 1];
    }
  }

  // ---------- what the closure keeps ----------

  /** The variables say how the subordinates are, as far as their callbacks have been added and called. */
  predicate Counts(c: Closure, subs: seq<Settlement>, seen: nat) {
    && |subs| == |c.values| == |c.progressValues| && seen <= |subs|
    && (forall i :: 0 <= i < |subs| ==> c.values[i] == CellOf(subs[i]))
    && c.remaining == CountOpen(subs[..seen]) + (|subs| - seen)
  }

  /** The first call that can settle the master says what has happened to the subordinates. */
  predicate Tells(c: Closure, subs: seq<Settlement>, first: Option<Value>) {
    && (first.Some? <==> AnyRejected(subs))
    && match D.FirstSettling(c.calls)
       case None => first.None?
       case Some(op) =>
         && op.Fire? && op.k <= D.FAIL && op.data < |c.passed|
         && if op.k == D.DONE then c.remaining == 0 && c.passed[op.data] == Values(c.values)
            else first.Some? && c.passed[op.data] == Reason(first.value)
  }

  predicate Kept(c: Closure, subs: seq<Settlement>, seen: nat, first: Option<Value>) {
    Counts(c, subs, seen) && Tells(c, subs, first)
  }

  /** Something is waited for until the master is settled. */
  predicate Waits(c: Closure) {
    D.FirstSettling(c.calls).None? ==> c.remaining > 0
  }

  /** A call after the decisive one changes nothing; before it, it decides if it can. */
  lemma CallTells(c: Closure, subs: seq<Settlement>, first: Option<Value>, k: nat, arguments: Arguments)
    requires k <= D.PROGRESS && (first.Some? <==> AnyRejected(subs))
    requires D.FirstSettling(c.calls).Some? || k == D.PROGRESS ==> Tells(c, subs, first)
    requires k == D.DONE ==> c.remaining == 0 && arguments == Values(c.values)
    requires k == D.FAIL && D.FirstSettling(c.calls).None? ==> first.Some? && arguments == Reason(first.value)
    ensures Tells(c.Call(k, arguments), subs, first)
    ensures D.FirstSettling(c.Call(k, arguments).calls).None? <==> D.FirstSettling(c.calls).None? && k == D.PROGRESS
  {
    hide D.FirstSettling, AnyRejected;
    D.FirstSettlingMore(c.calls, D.Fire(k, |c.passed|));
  }

  lemma ResolveKeeps(c: Closure, subs: seq<Settlement>, seen: nat, first: Option<Value>, i: nat, value: Value)
    requires Kept(c, subs, seen, first) && i < seen && subs[i].Pending?
    ensures Kept(c.Resolve(i, value), subs[i := Resolved(value)], seen, first)
    ensures Waits(c) ==> Waits(c.Resolve(i, value))
  {
    hide D.FirstSettling, AnyRejected, CountOpen;
    var more := subs[i := Resolved(value)];
    CountUpdate(subs[..seen], i, Resolved(value));
    assert more[..seen] == subs[..seen][i := Resolved(value)];
    NoneRejectedBy(subs, i, value);
    var d := c.(values := c.values[i := Holds(value)], remaining := c.remaining - 1);
    assert Tells(d, more, first);
    if d.remaining == 0 {
      CallTells(d, more, first, D.DONE, Values(d.values));
    }
  }

  lemma RejectKeeps(c: Closure, subs: seq<Settlement>, seen: nat, first: Option<Value>, i: nat, reason: Value)
    requires Kept(c, subs, seen, first) && i < seen && subs[i].Pending?
    ensures
      Kept(c.Reject(reason), subs[i := Rejected(reason)], seen, if first.None? then Some(reason) else first)
    ensures Waits(c.Reject(reason))
  {
    var more, now := subs[i := Rejected(reason)], if first.None? then Some(reason) else first;
    assert more[i].Rejected?;
    hide D.FirstSettling, AnyRejected, CountOpen;
    CountUpdate(subs[..seen], i, Rejected(reason));
    assert more[..seen] == subs[..seen][i := Rejected(reason)];
    CountUpdate(subs[..seen], i, Resolved(reason));   // so it is counted
    CallTells(c, more, now, D.FAIL, Reason(reason));
  }

  lemma NotifyKeeps(c: Closure, subs: seq<Settlement>, seen: nat, first: Option<Value>, i: nat, value: Value)
    requires Kept(c, subs, seen, first) && i < seen
    ensures Kept(c.Notify(i, value), subs, seen, first)
    ensures Waits(c) ==> Waits(c.Notify(i, value))
  {
    hide D.FirstSettling, AnyRejected, CountOpen;
    var d := c.(progressValues := c.progressValues[i := Some(value)]);
    CallTells(d, subs, first, D.PROGRESS, ProgressOf(d.progressValues));
  }

  lemma RoundKeeps(c: Closure, subs: seq<Settlement>, i: nat, first: Option<Value>, arg: Argument)
    requires Kept(c, subs, i, first) && i < |subs|
    requires subs[i] == if arg.Plain? then Resolved(arg.value) else Pending
    ensures
      var now := SubordinateNow(arg);
      Kept(c.Round(i, arg), subs[i := now], i + 1, if first.None? && now.Rejected? then Some(now.reason) else first)
  {
    hide D.FirstSettling, AnyRejected, CountOpen, Closure.Resolve, Closure.Reject, Closure.Notify;
    CountSnoc(subs, i);
    match arg {
      case Plain(_) =>
        assert subs[i := subs[i]] == subs;
      case Promise(now, progress) =>
        var d := c;
        match now {
          case Resolved(value) =>
            ResolveKeeps(c, subs, i + 1, first, i, value);
            d := c.Resolve(i, value);
          case Rejected(reason) =>
            RejectKeeps(c, subs, i + 1, first, i, reason);
            d := c.Reject(reason);
          case Pending =>
            assert subs[i := subs[i]] == subs;
        }
        if progress.Some? {
          var after := if first.None? && now.Rejected? then Some(now.reason) else first;
          NotifyKeeps(d, subs[i := now], i + 1, after, i, progress.value);
        }
    }
  }

  /** The subordinates when the first n arguments have been looked at. */
  function Seen(args: seq<Argument>, n: nat): (subs: seq<Settlement>)
    ensures |subs| == |args|
    ensures forall i :: 0 <= i < |args| ==>
              subs[i] == if i < n || args[i].Plain? then SubordinateNow(args[i]) else Pending
  {
    seq(|args|, i requires 0 <= i < |args| => if i < n || args[i].Plain? then SubordinateNow(args[i]) else Pending)
  }

  lemma {:induction false} RoundsKeep(args: seq<Argument>, n: nat)
    requires n <= |args|
    ensures Kept(Rounds(args, n), Seen(args, n), n, FirstArgument(args[..n]))
  {
    hide Closure.Round, FirstArgument, CountOpen;
    if n == 0 {
      NothingYet(args, Seen(args, 0));
      NoneRejectedYet(Seen(args, 0));
    } else {
      hide Kept;
      RoundsKeep(args, n - 1);
      RoundKeeps(Rounds(args, n - 1), Seen(args, n - 1), n - 1, FirstArgument(args[..n - 1]), args[n - 1]);
      FirstArgumentSnoc(args, n - 1);
      assert Seen(args, n - 1)[n - 1 := SubordinateNow(args[n - 1])] == Seen(args, n);
    }
  }

  /** When jQuery.when returns, nothing is waited for or the master is not settled. */
  lemma SetUpKeeps(args: seq<Argument>)
    ensures Kept(SetUp(args), SubordinatesNow(args), |args|, FirstArgument(args)) && Waits(SetUp(args))
  {
    hide FirstArgument, CountOpen, AnyRejected, D.FirstSettling, Rounds, Closure.Call;
    RoundsKeep(args, |args|);
    assert args[..|args|] == args && Seen(args, |args|) == SubordinatesNow(args);
    var c, subs := Rounds(args, |args|), SubordinatesNow(args);
    assert subs[..|subs|] == subs;
    if c.remaining == 0 {
      CallTells(c, subs, FirstArgument(args), D.DONE, Values(c.values));
      CallCounts(c, subs, |args|, D.DONE, Values(c.values));
    }
  }

  lemma CallCounts(c: Closure, subs: seq<Settlement>, seen: nat, k: nat, arguments: Arguments)
    requires Counts(c, subs, seen)
    ensures Counts(c.Call(k, arguments), subs, seen)
  {
  }

  lemma ReactKeeps(c: Closure, subs: seq<Settlement>, first: Option<Value>, e: Happening)
    requires Kept(c, subs, |subs|, first) && Waits(c) && Possible(subs, e)
    ensures Kept(c.React(e), Apply(subs, e), |subs|, if first.None? && e.Rejects? then Some(e.reason) else first)
    ensures Waits(c.React(e))
  {
    hide D.FirstSettling, AnyRejected, CountOpen, Closure.Resolve, Closure.Reject, Closure.Notify;
    match e {
      case Resolves(i, value) => ResolveKeeps(c, subs, |subs|, first, i, value);
      case Rejects(i, reason) => RejectKeeps(c, subs, |subs|, first, i, reason);
      case Progresses(i, value) => NotifyKeeps(c, subs, |subs|, first, i, value);
      case Attaches(_, _) =>
    }
  }

  lemma {:induction false} ReactAllKeeps(c: Closure, subs: seq<Settlement>, first: Option<Value>, es: seq<Happening>)
    requires Kept(c, subs, |subs|, first) && Waits(c) && Legal(subs, es)
    requires InRange(es, |subs|)
    ensures |subs| == |c.values| == |c.progressValues|
    ensures Kept(ReactAll(c, es), After(subs, es), |subs|, FirstRejection(first, es)) && Waits(ReactAll(c, es))
    decreases |es|
  {
    KeptSizes(c, subs, first);
    hide Kept, Waits, Closure.React, Apply, Possible;
    if |es| > 0 {
      assert forall k :: 0 <= k < |es[1..]| ==> es[1..][k] == es[k + 1];
      ReactKeeps(c, subs, first, es[0]);
      assert |Apply(subs, es[0])| == |subs| by { ApplySize(subs, es[0]); }
      var now := if first.None? && es[0].Rejects? then Some(es[0].reason) else first;
      ReactAllKeeps(c.React(es[0]), Apply(subs, es[0]), now, es[1..]);
    }
  }

  lemma KeptSizes(c: Closure, subs: seq<Settlement>, first: Option<Value>)
    requires Kept(c, subs, |subs|, first)
    ensures |subs| == |c.values| == |c.progressValues|
  {
  }

  lemma ApplySize(subs: seq<Settlement>, e: Happening)
    requires Possible(subs, e)
    ensures |Apply(subs, e)| == |subs|
  {
  }

  /** After any setup and any happenings: the count is that of the subordinates not resolved, and the first call that
      can settle the master was made exactly when it should have been, with every value in its place, or with the first
      rejection there was. */
  lemma WholeTells(args: seq<Argument>, es: seq<Happening>)
    requires Legal(SubordinatesNow(args), es)
    ensures
      var c, subs := Whole(args, es), After(SubordinatesNow(args), es);
      var decisive := D.FirstSettling(c.calls);
      && c.remaining == CountOpen(subs)
      && (decisive.Some? ==> decisive.value.Fire? && decisive.value.k <= D.FAIL && decisive.value.data < |c.passed|)
      && (decisive.Some? && decisive.value.k == D.DONE <==> forall i :: 0 <= i < |subs| ==> subs[i].Resolved?)
      && (decisive.Some? && decisive.value.k == D.FAIL <==> AnyRejected(subs))
      && (decisive.Some? && decisive.value.k == D.DONE ==>
            var vs := c.passed[decisive.value.data];
            && vs.Values? && |vs.values| == |args|
            && forall i :: 0 <= i < |args| ==> subs[i].Resolved? && vs.values[i] == Holds(subs[i].value))
      && (decisive.Some? && decisive.value.k == D.FAIL ==>
            FirstRejection(FirstArgument(args), es).Some?
            && c.passed[decisive.value.data] == Reason(FirstRejection(FirstArgument(args), es).value))
  {
    hide FirstArgument, FirstRejection, SetUp, ReactAll, D.FirstSettling;
    LegalInRange(SubordinatesNow(args), es);
    SetUpKeeps(args);
    ReactAllKeeps(SetUp(args), SubordinatesNow(args), FirstArgument(args), es);
    var subs := After(SubordinatesNow(args), es);
    assert subs[..|subs|] == subs;
    CountZero(subs);
  }

  // ---------- what progress shows ----------

  /** The newest progress of a subordinate, made before or after the call. */
  function Newest(args: seq<Argument>, es: seq<Happening>, i: nat): Option<Value>
    requires i < |args|
    decreases |es|
  {
    if |es| == 0 then if args[i].Promise? then args[i].progress else None
    else
      var last := es[|es| - 1];
      if last.Progresses? && last.i == i then Some(last.value) else Newest(args, es[..|es| - 1], i)
  }

  lemma {:induction false} ReactAllMore(c: Closure, es: seq<Happening>, e: Happening)
    requires |c.values| == |c.progressValues| && InRange(es + [e], |c.values|)
    ensures InRange(es, |c.values|) && (e.Attaches? || e.i < |c.values|)
    ensures ReactAll(c, es + [e]) == ReactAll(c, es).React(e)
    decreases |es|
  {
    hide Closure.React;
    assert (es + [e])[|es|] == e;
    assert forall k :: 0 <= k < |es| ==> (es + [e])[k] == es[k];
    if |es| == 0 {
      assert es + [e] == [e] && [e][1..] == [];
    } else {
      assert (es + [e])[0] == es[0] && (es + [e])[1..] == es[1..] + [e];
      assert forall k :: 0 <= k < |es[1..] + [e]| ==> (es[1..] + [e])[k] == (es + [e])[k + 1];
      ReactAllMore(c.React(es[0]), es[1..], e);
    }
  }

  lemma {:induction false} RoundsProgress(args: seq<Argument>, n: nat, i: nat)
    requires n <= |args| && i < |args|
    ensures Rounds(args, n).progressValues[i] == if i < n then Newest(args, [], i) else None
  {
    if n > 0 {
      RoundsProgress(args, n - 1, i);
      hide Rounds;
    }
  }

  /** Every place of progressValues holds the newest progress of its subordinate. */
  lemma {:induction false} ProgressIsNewest(args: seq<Argument>, es: seq<Happening>, i: nat)
    requires InRange(es, |args|) && i < |args|
    ensures ReactAll(SetUp(args), es).progressValues[i] == Newest(args, es, i)
    decreases |es|
  {
    if |es| == 0 {
      RoundsProgress(args, |args|, i);
    } else {
      var front, last := es[..|es| - 1], es[|es| - 1];
      assert es == front + [last];
      ReactAllMore(SetUp(args), front, last);
      ProgressIsNewest(args, front, i);
      hide SetUp, ReactAll;
    }
  }

  /** When a subordinate makes progress, the master is notified, and with the newest progress of every one. */
  lemma NotifiedWithNewest(args: seq<Argument>, es: seq<Happening>, i: nat, value: Value)
    requires InRange(es, |args|) && i < |args|
    ensures
      var before, after := ReactAll(SetUp(args), es), ReactAll(SetUp(args), es).React(Progresses(i, value));
      var told := after.passed[|after.passed| - 1];
      && after.calls == before.calls + [D.Fire(D.PROGRESS, |before.passed|)] && |after.passed| == |before.passed| + 1
      && told.ProgressOf? && |told.progress| == |args| && told.progress[i] == Some(value)
      && forall j :: 0 <= j < |args| && j != i ==> told.progress[j] == Newest(args, es, j)
  {
    hide SetUp, ReactAll;
    forall j | 0 <= j < |args| ensures ReactAll(SetUp(args), es).progressValues[j] == Newest(args, es, j) {
      ProgressIsNewest(args, es, j);
    }
  }

  // ---------- jQuery.when ----------

  /** How a master has ended: resolved exactly when every subordinate is, with every value in its place; otherwise
      rejected exactly when one was, with the first rejection. Every callback added to its promise for that outcome
      has been called once with these arguments, in the order of adding, and none for the other outcome. */
  ghost predicate Completed(master: D.World, passed: seq<Arguments>, args: seq<Argument>, es: seq<Happening>)
    requires Legal(SubordinatesNow(args), es)
    reads master, master.lists
  {
    var subs := After(SubordinatesNow(args), es);
    && (master.winner == Some(D.DONE) <==> forall i :: 0 <= i < |subs| ==> subs[i].Resolved?)
    && (master.winner == Some(D.FAIL) <==> AnyRejected(subs))
    && (master.state == F.Resolved <==> forall i :: 0 <= i < |subs| ==> subs[i].Resolved?)
    && (master.state == F.Rejected <==> AnyRejected(subs))
    && (master.winner.Some? ==>
          master.winner.value <= D.FAIL && master.settledWith < |passed| && CalledOnce(master, master.winner.value))
    && (master.winner == Some(D.DONE) ==>
          var vs := passed[master.settledWith];
          && vs.Values? && |vs.values| == |args|
          && forall i :: 0 <= i < |args| ==> subs[i].Resolved? && vs.values[i] == Holds(subs[i].value))
    && (master.winner == Some(D.FAIL) ==>
          && FirstRejection(FirstArgument(args), es).Some?
          && passed[master.settledWith] == Reason(FirstRejection(FirstArgument(args), es).value))
  }

  ghost predicate CalledOnce(master: D.World, winner: nat)
    requires winner <= D.FAIL
    reads master, master.lists
  {
    && |master.lists| == 3 && master.changes == [if winner == D.DONE then F.Resolved else F.Rejected]
    && F.RanIn(master.lists[1 - winner].log) == []
    && var l := master.lists[winner];
       && D.OneData(l.log, master.settledWith) && F.Increasing(F.AddedIn(l.log))
       && F.RanIn(l.log) <= F.AddedIn(l.log) && (!l.firing ==> F.RanIn(l.log) == F.AddedIn(l.log))
  }

  /** The calls the closure has made are all that was fired on the master, in whatever nesting: callbacks of the master
      may themselves settle or notify subordinates. Each happening counts from when its callback began. */
  lemma Completion(master: D.World, args: seq<Argument>, es: seq<Happening>)
    requires master.Good() && master.deferred && Legal(SubordinatesNow(args), es)
    requires master.fires == Whole(args, es).calls
    ensures Completed(master, Whole(args, es).passed, args, es)
  {
    hide D.World.Good, D.FirstSettling, Whole, After, FirstArgument, FirstRejection, AnyRejected, CalledOnce;
    WholeTells(args, es);
    D.FirstFireDecides(master);
    StateShows(master);
    if master.winner.Some? {
      WinnersAreCalled(master);
    }
  }

  lemma StateShows(master: D.World)
    requires master.Good() && master.deferred
    ensures master.state == F.Resolved <==> master.winner == Some(D.DONE)
    ensures master.state == F.Rejected <==> master.winner == Some(D.FAIL)
  {
    hide D.World.Good, F.RanIn, F.AddedIn, F.Increasing, D.OneData;
    D.SettlesOnce(master);
  }

  lemma WinnersAreCalled(master: D.World)
    requires master.Good() && master.deferred && master.winner.Some?
    ensures master.winner.value <= D.FAIL && CalledOnce(master, master.winner.value)
  {
    hide D.World.Good, F.RanIn, F.AddedIn, F.Increasing, D.OneData;
    D.SettlesOnce(master);
  }

  class When {
    const master: D.World
    var remaining: int
    var values: seq<Cell>                    // resolveValues
    var progressValues: seq<Option<Value>>
    var passed: seq<Arguments>               // what the master was called with, each named by its place

    ghost function Now(): Closure
      reads this, master
    {
      Closure(remaining, values, progressValues, passed, master.fires)
    }

    /** The master between two calls: no pass is running, and its callbacks only add others. */
    ghost predicate MasterReady()
      reads master, master.lists
    {
      && master.Good() && master.deferred && D.AddingScript(master.script)
      && forall k :: 0 <= k < |master.lists| ==> !master.lists[k].firing
    }

    lemma MasterLists()
      requires MasterReady()
      ensures |master.lists| == 3
    {
      hide D.World.Good;
      master.ListCount();
    }

    /** deferred.resolveWith, rejectWith or notifyWith: a notification before the outcome begins a pass, and nothing
        after it changes a list. */
    method CallMaster(k: nat, arguments: Arguments)
      requires MasterReady() && k <= D.PROGRESS
      modifies this`passed, master, master.lists
      ensures MasterReady() && Now() == old(Now()).Call(k, arguments)
      ensures old(master.winner).Some? ==> forall j :: 0 <= j < |master.lists| ==> unchanged(master.lists[j])
      ensures old(master.winner).None? ==>
                && k < |master.lists|
                && old(master.lists[k].log) + [F.Accepted(|old(passed)|), F.Begun(|old(passed)|, 0, true)]
                   <= master.lists[k].log
    {
      hide D.World.Good, D.AddingScript;
      MasterLists();
      master.FiresIffPending(k);
      passed := passed + [arguments];
      master.FireWith(k, |passed| - 1);
    }

    /** The function updateFunc makes for resolution. */
    method Resolve(i: nat, value: Value)
      requires MasterReady() && i < |values| == |progressValues|
      modifies this, master, master.lists
      ensures MasterReady() && Now() == old(Now()).Resolve(i, value)
    {
      hide MasterReady;
      values := values[i := Holds(value)];
      remaining := remaining - 1;
      if remaining == 0 {
        CallMaster(D.DONE, Values(values));
      }
    }

    /** deferred.reject. */
    method Reject(reason: Value)
      requires MasterReady()
      modifies this, master, master.lists
      ensures MasterReady() && Now() == old(Now()).Reject(reason)
    {
      hide MasterReady;
      CallMaster(D.FAIL, Reason(reason));
    }

    /** The function updateFunc makes for progress: a settled master is not notified. */
    method Notify(i: nat, value: Value)
      requires MasterReady() && i < |values| == |progressValues|
      modifies this, master, master.lists
      ensures MasterReady() && Now() == old(Now()).Notify(i, value)
      ensures old(master.winner).Some? ==> forall j :: 0 <= j < |master.lists| ==> unchanged(master.lists[j])
      ensures old(master.winner).None? ==>
                && |master.lists| > D.PROGRESS
                && old(master.lists[D.PROGRESS].log) + [F.Accepted(|old(passed)|), F.Begun(|old(passed)|, 0, true)]
                   <= master.lists[D.PROGRESS].log
    {
      hide MasterReady;
      MasterLists();
      progressValues := progressValues[i := Some(value)];
      CallMaster(D.PROGRESS, ProgressOf(progressValues));
    }

    /** done, fail or progress of the promise that jQuery.when returned. */
    method Attach(k: nat, fns: seq<F.Fn>)
      requires MasterReady() && k <= D.PROGRESS && D.AllUser(fns)
      modifies master, master.lists
      ensures MasterReady() && Now() == old(Now())
    {
      hide D.World.Good, D.AddingScript;
      MasterLists();
      ghost var more, mid := master.AddTo(k, fns);
    }

    /** The call itself. The script is what callbacks added to the master will do. */
    constructor (args: seq<Argument>, script: seq<D.Call>)
      requires |args| != 1 && D.OfferedScript(script) && D.AddingScript(script)
      ensures MasterReady() && Now() == SetUp(args) && fresh(master) && fresh(master.lists)
    {
      hide D.World.Good, D.AddingScript, D.OfferedScript;
      remaining := |args|;
      master := new D.World.Deferred(script);
      values := seq(|args|, i requires 0 <= i < |args| => if args[i].Plain? then Holds(args[i].value) else Subordinate);
      progressValues := seq(|args|, i => None);
      passed := [];
      new;
      hide MasterReady;
      for n := 0 to |args|
        invariant MasterReady() && Now() == Rounds(args, n) && fresh(master) && fresh(master.lists)
      {
        AddCallbacks(n, args[n]);
      }
      if remaining == 0 {
        CallMaster(D.DONE, Values(values));
      }
    }

    /** One round of the loop over the arguments: an argument that is not a promise counts as resolved, and callbacks
        added to a promise that has settled, or been notified, are called at once. */
    method AddCallbacks(i: nat, arg: Argument)
      requires MasterReady() && i < |values| == |progressValues|
      modifies this, master, master.lists
      ensures MasterReady() && Now() == old(Now()).Round(i, arg)
    {
      hide MasterReady;
      match arg {
        case Plain(_) =>
          remaining := remaining - 1;
        case Promise(now, progress) =>
          match now {
            case Resolved(value) => Resolve(i, value);
            case Rejected(reason) => Reject(reason);
            case Pending =>
          }
          if progress.Some? {
            Notify(i, progress.value);
          }
      }
    }

    /** One thing happens. */
    method DeliverOne(e: Happening)
      requires MasterReady() && |values| == |progressValues|
      requires if e.Attaches? then e.k <= D.PROGRESS && D.AllUser(e.fns) else e.i < |values|
      modifies this, master, master.lists
      ensures MasterReady() && Now() == old(Now()).React(e)
    {
      hide MasterReady;
      match e {
        case Resolves(i, value) => Resolve(i, value);
        case Rejects(_, reason) => Reject(reason);
        case Progresses(i, value) => Notify(i, value);
        case Attaches(k, fns) => Attach(k, fns);
      }
    }

    /** What happens later, in any order. */
    method Deliver(es: seq<Happening>, ghost subs: seq<Settlement>)
      requires MasterReady() && |values| == |progressValues| == |subs| && Legal(subs, es) && InRange(es, |values|)
      modifies this, master, master.lists
      ensures MasterReady() && Now() == ReactAll(old(Now()), es)
    {
      hide MasterReady, Closure.React, Possible, Apply;
      ghost var sofar := subs;
      assert es[0..] == es;
      for k := 0 to |es|
        invariant MasterReady() && |values| == |progressValues| == |sofar|
        invariant Legal(sofar, es[k..]) && InRange(es[k..], |values|)
        invariant ReactAll(Now(), es[k..]) == ReactAll(old(Now()), es)
      {
        assert es[k..][1..] == es[k + 1..] && es[k..][0] == es[k];
        PossibleMeans(sofar, es[k]);
        ghost var before := Now();
        DeliverOne(es[k]);
        sofar := Apply(sofar, es[k]);
      }
    }
  }

  lemma PossibleMeans(subs: seq<Settlement>, e: Happening)
    requires Possible(subs, e)
    ensures if e.Attaches? then e.k <= D.PROGRESS && D.AllUser(e.fns) else e.i < |subs|
    ensures |Apply(subs, e)| == |subs|
  {
  }

  /** A whole run of the objects: any arguments, any happenings, and any callbacks on the master's promise that add
      further ones. */
  method AnyCompletion(args: seq<Argument>, script: seq<D.Call>, es: seq<Happening>) returns (w: When)
    requires |args| != 1 && Legal(SubordinatesNow(args), es) && D.OfferedScript(script) && D.AddingScript(script)
    ensures w.Now() == Whole(args, es) && w.remaining == CountOpen(After(SubordinatesNow(args), es))
    ensures Completed(w.master, w.passed, args, es)
  {
    hide D.World.Good, CountOpen, After, Completed, SetUp, ReactAll;
    LegalInRange(SubordinatesNow(args), es);
    w := new When(args, script);
    w.Deliver(es, SubordinatesNow(args));
    WholeTells(args, es);
    Completion(w.master, args, es);
  }

  // ---------- the order does not matter ----------

  lemma {:induction false} SettledStays(subs: seq<Settlement>, es: seq<Happening>, i: nat)
    requires Legal(subs, es) && i < |subs| && !subs[i].Pending?
    ensures After(subs, es)[i] == subs[i] && forall e :: e in es ==> !e.Concerns(i)
    decreases |es|
  {
    if |es| > 0 {
      SettledStays(Apply(subs, es[0]), es[1..], i);
      assert forall e :: e in es ==> e == es[0] || e in es[1..];
    }
  }

  /** What a subordinate is in the end is said by the one happening that settles it. */
  lemma {:induction false} SettledBy(subs: seq<Settlement>, es: seq<Happening>, e: Happening)
    requires Legal(subs, es) && e in es && e.Settles()
    ensures e.i < |subs| && After(subs, es)[e.i] == (if e.Resolves? then Resolved(e.value) else Rejected(e.reason))
    decreases |es|
  {
    var next := Apply(subs, es[0]);
    if e == es[0] {
      SettledStays(next, es[1..], e.i);
    } else {
      SettledBy(next, es[1..], e);
    }
  }

  lemma {:induction false} NotSettled(subs: seq<Settlement>, es: seq<Happening>, i: nat)
    requires Legal(subs, es) && i < |subs| && forall e :: e in es && e.Concerns(i) ==> !e.Settles()
    ensures After(subs, es)[i] == subs[i]
    decreases |es|
  {
    if |es| > 0 {
      assert es[0] in es;
      assert forall e :: e in es[1..] ==> e in es;
      NotSettled(Apply(subs, es[0]), es[1..], i);
    }
  }

  /** Whatever the order of completion, the subordinates end the same, and so do the count, whether the master is
      resolved, and its values. */
  lemma SameInAnyOrder(subs: seq<Settlement>, es: seq<Happening>, fs: seq<Happening>)
    requires Legal(subs, es) && Legal(subs, fs) && multiset(es) == multiset(fs)
    ensures After(subs, es) == After(subs, fs)
  {
    assert forall e :: e in es <==> e in multiset(es);
    assert forall e :: e in fs <==> e in multiset(fs);
    forall i | 0 <= i < |subs| ensures After(subs, es)[i] == After(subs, fs)[i] {
      if e :| e in es && e.Concerns(i) && e.Settles() {
        SettledBy(subs, es, e);
        SettledBy(subs, fs, e);
      } else {
        NotSettled(subs, es, i);
        NotSettled(subs, fs, i);
      }
    }
  }
}
